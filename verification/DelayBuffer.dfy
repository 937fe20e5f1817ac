/** The broadcast-delay ring buffer (crates/bulwark-flow/src/buffer.rs): segments wait under a
    ticket until a verdict forwards or drops them, bounded by count and by bytes. A `Trace`
    is the history of calls; what the buffer should hold is read off the history alone. */
module DelayBuffer {
  import opened Base

  datatype Config = Config(maxSegments: usize, maxBytes: usize, liveDelayMs: u32, vodBudgetMs: u32)

  const NANOS_PER_MS: nat := 1_000_000

  datatype SegState = Pending | Overdue | Held

  datatype Segment = Segment(id: nat, bytes: Bytes, live: bool, admittedAt: nat, deadline: nat, state: SegState)

  datatype State = State(queue: seq<Segment>, heldBytes: usize, nextId: nat, currentDelayMs: u32)

  const Initial: State := State([], 0, 1, 0)

  datatype Action = Unspecified | Allow | Warn | Log | Blur | Mute | Block

  datatype Released = Forward(bytes: Bytes) | Dropped | StillHeld

  datatype FlowError = SegmentNotFound(id: nat)

  datatype OverdueSegment = OverdueSegment(id: nat, live: bool, bytes: Bytes)

  // ----- Machine arithmetic -----

  function SaturatingAdd(a: usize, b: nat): usize {
    if a + b <= USIZE_MAX then a + b else USIZE_MAX
  }

  function WrappingAdd(a: usize, b: nat): usize {
    (a + b) % USIZE_RANGE
  }

  function WrappingSub(a: usize, b: nat): usize {
    (a - b) % USIZE_RANGE
  }

  // ----- The operations -----

  predicate IsFullFor(cfg: Config, s: State, len: nat) {
    |s.queue| >= cfg.maxSegments || SaturatingAdd(s.heldBytes, len) > cfg.maxBytes
  }

  function Deadline(cfg: Config, live: bool, now: nat): nat {
    now + (if live then cfg.liveDelayMs else cfg.vodBudgetMs) * NANOS_PER_MS
  }

  /** How far behind live the front of the queue is, in milliseconds kept to 32 bits. */
  function FrontDelay(queue: seq<Segment>, now: nat): u32 {
    if queue == [] then 0 else AsU32(Since(now, queue[0].admittedAt) / NANOS_PER_MS)
  }

  function Recompute(s: State, now: nat): State {
    s.(currentDelayMs := FrontDelay(s.queue, now))
  }

  function Admit(cfg: Config, s: State, bytes: Bytes, live: bool, now: nat): State {
    var seg := Segment(s.nextId, bytes, live, now, Deadline(cfg, live, now), Pending);
    Recompute(State(s.queue + [seg], WrappingAdd(s.heldBytes, |bytes|), s.nextId + 1, s.currentDelayMs), now)
  }

  /** The first segment with this id, as `position` finds it. */
  function Find(queue: seq<Segment>, id: nat): Option<Segment> {
    if queue == [] then None else if queue[0].id == id then Some(queue[0]) else Find(queue[1..], id)
  }

  function Without(queue: seq<Segment>, id: nat): seq<Segment> {
    if queue == [] then [] else if queue[0].id == id then queue[1..] else [queue[0]] + Without(queue[1..], id)
  }

  function WithHeld(queue: seq<Segment>, id: nat): seq<Segment> {
    if queue == [] then []
    else if queue[0].id == id then [queue[0].(state := Held)] + queue[1..]
    else [queue[0]] + WithHeld(queue[1..], id)
  }

  function Outcome(action: Action, rewritten: Option<Bytes>, original: Bytes): Released {
    match action
    case Block => Dropped
    case Allow | Warn | Log => Forward(original)
    case Blur | Mute => Forward(if rewritten.Some? then rewritten.value else original)
    case Unspecified => StillHeld
  }

  function Apply(s: State, id: nat, action: Action, rewritten: Option<Bytes>, now: nat)
    : (State, Result<Released, FlowError>)
  {
    var found := Find(s.queue, id);
    if found.None? then
      (s, Err(SegmentNotFound(id)))
    else
      var bytes := found.value.bytes;
      var released := Outcome(action, rewritten, bytes);
      if action.Unspecified? then
        (s.(queue := WithHeld(s.queue, id)), Ok(released))
      else
        var left := s.(queue := Without(s.queue, id), heldBytes := WrappingSub(s.heldBytes, |bytes|));
        (Recompute(left, now), Ok(released))
  }

  predicate IsDue(seg: Segment, now: nat) {
    seg.deadline <= now && !seg.state.Held?
  }

  function MarkOverdue(queue: seq<Segment>, now: nat): seq<Segment> {
    if queue == [] then []
    else [if IsDue(queue[0], now) then queue[0].(state := Overdue) else queue[0]] + MarkOverdue(queue[1..], now)
  }

  function DueSegments(queue: seq<Segment>, now: nat): seq<OverdueSegment> {
    if queue == [] then []
    else if IsDue(queue[0], now)
    then [OverdueSegment(queue[0].id, queue[0].live, queue[0].bytes)] + DueSegments(queue[1..], now)
    else DueSegments(queue[1..], now)
  }

  // ----- Histories -----

  datatype Event =
    | Admission(bytes: Bytes, live: bool, now: nat, accepted: bool)
    | Verdict(id: nat, action: Action, rewritten: Option<Bytes>, now: nat)
    | Hold(id: nat)
    | Poll(now: nat)
    | Query(now: nat)

  type Trace = seq<Event>

  function Step(cfg: Config, s: State, e: Event): State {
    match e
    case Admission(bytes, live, now, accepted) => if accepted then Admit(cfg, s, bytes, live, now) else s
    case Verdict(id, action, rewritten, now) => Apply(s, id, action, rewritten, now).0
    case Hold(id) => s.(queue := WithHeld(s.queue, id))
    case Poll(now) => s.(queue := MarkOverdue(s.queue, now))
    case Query(now) => Recompute(s, now)
  }

  function After(cfg: Config, t: Trace): State {
    if t == [] then Initial else Step(cfg, After(cfg, Front(t)), Last(t))
  }

  /** Segments are refused exactly when the buffer is full for them. */
  predicate Legal(cfg: Config, t: Trace) {
    t == []
    || (&& Legal(cfg, Front(t))
        && (Last(t).Admission? ==>
              && |Last(t).bytes| <= ISIZE_MAX
              && (Last(t).accepted <==> !IsFullFor(cfg, After(cfg, Front(t)), |Last(t).bytes|))))
  }

  // ----- What a history says, read off its events -----

  /** An admitted segment: ticket `id` is the `id`-th admission. */
  datatype Ticket = Ticket(id: nat, bytes: Bytes, live: bool, admittedAt: nat, deadline: nat)

  function Tickets(cfg: Config, t: Trace): seq<Ticket> {
    if t == [] then []
    else
      var past, e := Tickets(cfg, Front(t)), Last(t);
      if e.Admission? && e.accepted
      then past + [Ticket(|past| + 1, e.bytes, e.live, e.now, Deadline(cfg, e.live, e.now))]
      else past
  }

  predicate Issued(cfg: Config, t: Trace, id: nat) {
    1 <= id <= |Tickets(cfg, t)|
  }

  /** The verdict that settled a ticket: the first one, after its admission, that decides anything. */
  function Settlement(cfg: Config, t: Trace, id: nat): Option<Released> {
    if t == [] then None
    else
      var past, e := Settlement(cfg, Front(t), id), Last(t);
      if past.Some? then past
      else if e.Verdict? && e.id == id && !e.action.Unspecified? && Issued(cfg, Front(t), id)
      then Some(Outcome(e.action, e.rewritten, Tickets(cfg, Front(t))[id - 1].bytes))
      else None
  }

  /** Some caller asked to keep holding the ticket. */
  predicate AskedToHold(cfg: Config, t: Trace, id: nat) {
    t != []
    && (|| AskedToHold(cfg, Front(t), id)
        || (&& (Last(t) == Hold(id) || (Last(t).Verdict? && Last(t).id == id && Last(t).action.Unspecified?))
            && Issued(cfg, Front(t), id)))
  }

  /** What the buffer should hold for one ticket. */
  datatype Slot = Slot(ticket: Ticket, held: bool)

  /** The unsettled ones among the first `n` tickets, in admission order. */
  function Unsettled(cfg: Config, t: Trace, n: nat): seq<Slot>
    requires n <= |Tickets(cfg, t)|
  {
    if n == 0 then []
    else if Settlement(cfg, t, n).Some? then Unsettled(cfg, t, n - 1)
    else Unsettled(cfg, t, n - 1) + [Slot(Tickets(cfg, t)[n - 1], AskedToHold(cfg, t, n))]
  }

  function Waiting(cfg: Config, t: Trace): seq<Slot> {
    Unsettled(cfg, t, |Tickets(cfg, t)|)
  }

  function SlotOf(seg: Segment): Slot {
    Slot(Ticket(seg.id, seg.bytes, seg.live, seg.admittedAt, seg.deadline), seg.state.Held?)
  }

  function Slots(queue: seq<Segment>): seq<Slot> {
    if queue == [] then [] else [SlotOf(queue[0])] + Slots(queue[1..])
  }

  function TotalBytes(queue: seq<Segment>): nat {
    if queue == [] then 0 else TotalBytes(queue[1..]) + |queue[0].bytes|
  }
}

/** The delay buffer object itself: the fields one lock protects, updated in place
    (crates/bulwark-flow/src/buffer.rs). The ghost `trace` makes every law about
    histories in `DelayBufferLaws` a law about every reachable buffer. */
module DelayBufferObject {
  import opened Base
  import opened DelayBuffer
  import BufferTimes
  import DelayBufferLaws

  datatype Admission = Admitted(id: nat) | BackPressure

  // ----- Positions in the queue -----

  ghost predicate FirstAt(queue: seq<Segment>, pos: nat, id: nat) {
    pos < |queue| && queue[pos].id == id && forall k :: 0 <= k < pos ==> queue[k].id != id
  }

  lemma {:induction false} FindAt(queue: seq<Segment>, pos: nat, id: nat)
    requires FirstAt(queue, pos, id)
    ensures Find(queue, id) == Some(queue[pos])
  {
    if pos > 0 { FindAt(queue[1..], pos - 1, id); }
  }

  lemma {:induction false} WithoutAt(queue: seq<Segment>, pos: nat, id: nat)
    requires FirstAt(queue, pos, id)
    ensures Without(queue, id) == queue[..pos] + queue[pos + 1..]
  {
    if pos > 0 {
      WithoutAt(queue[1..], pos - 1, id);
      assert queue[..pos] == [queue[0]] + queue[1..][..pos - 1];
      assert queue[pos + 1..] == queue[1..][pos..];
    }
  }

  lemma {:induction false} WithHeldAt(queue: seq<Segment>, pos: nat, id: nat)
    requires FirstAt(queue, pos, id)
    ensures WithHeld(queue, id) == queue[pos := queue[pos].(state := Held)]
  {
    if pos > 0 { WithHeldAt(queue[1..], pos - 1, id); }
  }

  lemma {:induction false} NoPosition(queue: seq<Segment>, id: nat)
    requires forall k :: 0 <= k < |queue| ==> queue[k].id != id
    ensures Find(queue, id).None? && WithHeld(queue, id) == queue
  {
    if queue != [] { NoPosition(queue[1..], id); }
  }

  function Marked(seg: Segment, now: nat): Segment {
    if IsDue(seg, now) then seg.(state := Overdue) else seg
  }

  lemma {:induction false} MarkOverdueAt(queue: seq<Segment>, now: nat, k: nat)
    requires k < |queue|
    ensures |MarkOverdue(queue, now)| == |queue| && MarkOverdue(queue, now)[k] == Marked(queue[k], now)
  {
    if |queue| > 1 { MarkOverdueAt(queue[1..], now, if k > 0 then k - 1 else 0); }
  }

  lemma AllMarked(queue: seq<Segment>, marked: seq<Segment>, now: nat)
    requires |marked| == |queue| && forall k :: 0 <= k < |queue| ==> marked[k] == Marked(queue[k], now)
    ensures marked == MarkOverdue(queue, now)
  {
    forall k | 0 <= k < |queue|
      ensures |MarkOverdue(queue, now)| == |queue| && marked[k] == MarkOverdue(queue, now)[k]
    {
      MarkOverdueAt(queue, now, k);
    }
    if queue == [] { assert MarkOverdue(queue, now) == []; }
  }

  lemma DueFrom(queue: seq<Segment>, i: nat, now: nat)
    requires i < |queue|
    ensures DueSegments(queue[i..], now)
         == (if IsDue(queue[i], now) then [OverdueSegment(queue[i].id, queue[i].live, queue[i].bytes)] else [])
            + DueSegments(queue[i + 1..], now)
  {
    assert queue[i..][1..] == queue[i + 1..];
  }

  class Buffer {
    const cfg: Config
    var queue: seq<Segment>
    var heldBytes: usize
    var nextId: nat
    var currentDelayMs: u32
    ghost var trace: Trace

    ghost function Current(): State
      reads this
    {
      State(queue, heldBytes, nextId, currentDelayMs)
    }

    ghost predicate Valid()
      reads this
    {
      Legal(cfg, trace) && After(cfg, trace) == Current()
    }

    constructor (cfg: Config)
      ensures Valid() && this.cfg == cfg && trace == [] && Current() == Initial
    {
      this.cfg := cfg;
      queue, heldBytes, nextId, currentDelayMs, trace := [], 0, 1, 0, [];
    }

    ghost method Record(e: Event)
      requires Legal(cfg, trace) && Current() == Step(cfg, After(cfg, trace), e)
      requires e.Admission? ==> |e.bytes| <= ISIZE_MAX
      requires e.Admission? ==> (e.accepted <==> !IsFullFor(cfg, After(cfg, trace), |e.bytes|))
      modifies this`trace
      ensures Valid() && trace == old(trace) + [e]
    {
      DelayBufferLaws.Extend(cfg, trace, e);
      trace := trace + [e];
    }

    method RecomputeDelay(now: nat)
      modifies this`currentDelayMs
      ensures Current() == Recompute(old(Current()), now)
    {
      currentDelayMs := if queue == [] then 0 else AsU32(Since(now, queue[0].admittedAt) / NANOS_PER_MS);
    }

    /** Admits a segment under the next ticket, or refuses it when either cap would be passed. */
    method AdmitAt(bytes: Bytes, live: bool, now: nat) returns (r: Admission)
      requires Valid() && |bytes| <= ISIZE_MAX
      modifies this
      ensures Valid()
      ensures r == if |old(queue)| >= cfg.maxSegments || Min(old(heldBytes) + |bytes|, USIZE_MAX) > cfg.maxBytes
                   then BackPressure else Admitted(old(nextId))
      ensures trace == old(trace) + [DelayBuffer.Admission(bytes, live, now, r.Admitted?)]
      ensures r.BackPressure? ==> Current() == old(Current())
      ensures r.Admitted? ==>
                var deadline := now + (if live then cfg.liveDelayMs else cfg.vodBudgetMs) * 1_000_000;
                queue == old(queue) + [Segment(r.id, bytes, live, now, deadline, Pending)]
    {
      var wouldBe := SaturatingAdd(heldBytes, |bytes|);
      if |queue| >= cfg.maxSegments || wouldBe > cfg.maxBytes {
        Record(DelayBuffer.Admission(bytes, live, now, false));
        return BackPressure;
      }
      var id := nextId;
      nextId := nextId + 1;
      var budget := if live then cfg.liveDelayMs else cfg.vodBudgetMs;
      queue := queue + [Segment(id, bytes, live, now, now + budget * NANOS_PER_MS, Pending)];
      heldBytes := WrappingAdd(heldBytes, |bytes|);
      RecomputeDelay(now);
      Record(DelayBuffer.Admission(bytes, live, now, true));
      r := Admitted(id);
    }

    method Position(id: nat) returns (pos: nat)
      ensures pos < |queue| ==> FirstAt(queue, pos, id)
      ensures pos >= |queue| ==> pos == |queue| && forall k :: 0 <= k < |queue| ==> queue[k].id != id
    {
      pos := 0;
      while pos < |queue| && queue[pos].id != id
        invariant pos <= |queue|
        invariant forall k :: 0 <= k < pos ==> queue[k].id != id
      {
        pos := pos + 1;
      }
    }

    /** Applies a verdict to a waiting segment. The answer is the one the history calls for. */
    method ApplyVerdict(id: nat, action: Action, rewritten: Option<Bytes>, now: nat)
      returns (r: Result<Released, FlowError>)
      requires Valid()
      modifies this
      ensures Valid() && trace == old(trace) + [Verdict(id, action, rewritten, now)]
      ensures r == if DelayBufferLaws.IsPending(cfg, old(trace), id)
                   then
                     var bytes := Tickets(cfg, old(trace))[id - 1].bytes;
                     match action
                     case Block => Ok(Dropped)
                     case Allow | Warn | Log => Ok(Forward(bytes))
                     case Blur | Mute => Ok(Forward(if rewritten.Some? then rewritten.value else bytes))
                     case Unspecified => Ok(StillHeld)
                   else Err(SegmentNotFound(id))
    {
      ghost var s := Current();
      DelayBufferLaws.VerdictAnswer(cfg, trace, id, action, rewritten, now);
      var pos := Position(id);
      if pos == |queue| {
        NoPosition(queue, id);
        Record(Verdict(id, action, rewritten, now));
        return Err(SegmentNotFound(id));
      }
      FindAt(queue, pos, id);
      WithoutAt(queue, pos, id);
      WithHeldAt(queue, pos, id);
      var bytes := queue[pos].bytes;
      match action {
        case Block =>
          RemoveAt(pos, now);
          r := Ok(Dropped);
        case Allow | Warn | Log =>
          RemoveAt(pos, now);
          r := Ok(Forward(bytes));
        case Blur | Mute =>
          RemoveAt(pos, now);
          r := Ok(Forward(if rewritten.Some? then rewritten.value else bytes));
        case Unspecified =>
          queue := queue[pos := queue[pos].(state := Held)];
          r := Ok(StillHeld);
      }
      assert Current() == Apply(s, id, action, rewritten, now).0;
      Record(Verdict(id, action, rewritten, now));
    }

    method RemoveAt(pos: nat, now: nat)
      requires pos < |queue|
      modifies this`queue, this`heldBytes, this`currentDelayMs
      ensures Current() == Recompute(old(Current()).(queue := old(queue)[..pos] + old(queue)[pos + 1..],
                                       heldBytes := WrappingSub(old(heldBytes), |old(queue)[pos].bytes|)), now)
    {
      var len := |queue[pos].bytes|;
      queue := queue[..pos] + queue[pos + 1..];
      heldBytes := WrappingSub(heldBytes, len);
      RecomputeDelay(now);
    }

    /** Keeps holding a waiting segment. */
    method HoldSegment(id: nat) returns (r: Result<(), FlowError>)
      requires Valid()
      modifies this
      ensures Valid() && trace == old(trace) + [Hold(id)]
      ensures r == if DelayBufferLaws.IsPending(cfg, old(trace), id) then Ok(()) else Err(SegmentNotFound(id))
    {
      DelayBufferLaws.FindWaiting(cfg, trace, id);
      var pos := Position(id);
      if pos == |queue| {
        NoPosition(queue, id);
        Record(Hold(id));
        return Err(SegmentNotFound(id));
      }
      FindAt(queue, pos, id);
      WithHeldAt(queue, pos, id);
      queue := queue[pos := queue[pos].(state := Held)];
      Record(Hold(id));
      r := Ok(());
    }

    /** Reports, and marks, every segment past its deadline that is not held. */
    method DueSegmentsAt(now: nat) returns (overdue: seq<OverdueSegment>)
      requires Valid()
      modifies this
      ensures Valid() && trace == old(trace) + [Poll(now)]
      ensures overdue == DelayBufferLaws.DueSlots(Waiting(cfg, old(trace)), now)
      ensures forall o :: o in overdue <==> BufferTimes.TimeIsUp(cfg, old(trace), o, now)
    {
      forall o ensures o in DueSegments(After(cfg, trace).queue, now) <==> BufferTimes.TimeIsUp(cfg, trace, o, now) {
        BufferTimes.PollExactly(cfg, trace, now, o);
      }
      DelayBufferLaws.PollAnswer(cfg, trace, now);
      overdue := MarkDue(now);
      Record(Poll(now));
    }

    method MarkDue(now: nat) returns (overdue: seq<OverdueSegment>)
      modifies this`queue
      ensures queue == MarkOverdue(old(queue), now) && overdue == DueSegments(old(queue), now)
    {
      ghost var q := queue;
      overdue := [];
      for i := 0 to |queue|
        invariant |queue| == |q|
        invariant forall k :: 0 <= k < i ==> queue[k] == Marked(q[k], now)
        invariant forall k :: i <= k < |q| ==> queue[k] == q[k]
        invariant overdue + DueSegments(q[i..], now) == DueSegments(q, now)
      {
        var seg := queue[i];
        DueFrom(q, i, now);
        if now >= seg.deadline && seg.state != Held {
          queue := queue[i := seg.(state := Overdue)];
          overdue := overdue + [OverdueSegment(seg.id, seg.live, seg.bytes)];
        }
      }
      AllMarked(q, queue, now);
    }

    /** The delay of the oldest pending segment, as long as segments arrive in clock order. */
    method CurrentDelayMsAt(now: nat) returns (ms: u32)
      requires Valid()
      modifies this
      ensures Valid() && trace == old(trace) + [Query(now)]
      ensures DelayBufferLaws.AdmittedInOrder(cfg, old(trace)) ==>
                ms == AsU32(DelayBufferLaws.OldestAge(Waiting(cfg, old(trace)), now))
    {
      if DelayBufferLaws.AdmittedInOrder(cfg, trace) {
        DelayBufferLaws.DelayIsOldestAge(cfg, trace, now);
      }
      RecomputeDelay(now);
      Record(Query(now));
      ms := currentDelayMs;
    }

    /** True exactly when admitting `len` bytes now would be refused. */
    method RefusesLength(len: nat) returns (full: bool)
      ensures full <==> |queue| >= cfg.maxSegments || Min(heldBytes + len, USIZE_MAX) > cfg.maxBytes
    {
      full := |queue| >= cfg.maxSegments || SaturatingAdd(heldBytes, len) > cfg.maxBytes;
    }
  }
}

/** The classifier object and the buffer it drives (crates/bulwark-flow/src/classifier.rs).
    The ghost `run` makes every law about runs in `FlowUnits` a law about every reachable
    classifier. */
module FlowClassifier {
  import opened Base
  import opened Classify
  import opened DelayBuffer
  import opened FlowUnits
  import BufferTimes
  import ClassifyKinds
  import Decimal
  import DelayBufferLaws
  import DelayBufferObject

  /** The buffer after the events of classifying one flow. */
  lemma AfterCall(cfg: Config, t: Trace, flow: CapturedFlow, now: nat)
    ensures After(cfg, t + CallEvents(cfg, t, Classified(flow, now)))
         == Absorbed(cfg, After(cfg, t), flow, ClassifyFlow(flow), now)
  {
    var es := CallEvents(cfg, t, Classified(flow, now));
    if es == [] {
      assert t + es == t;
    } else {
      DelayBufferLaws.Extend(cfg, t, es[0]);
      assert es == [es[0]];
    }
  }

  class DefaultFlowClassifier {
    const buffer: DelayBufferObject.Buffer
    var seqNo: usize
    ghost var run: Run

    ghost predicate Valid()
      reads this, buffer
    {
      Proper(run) && buffer.Valid() && buffer.trace == Events(buffer.cfg, run)
    }

    constructor (cfg: Config)
      ensures Valid() && fresh(buffer) && buffer.cfg == cfg && run == []
    {
      buffer := new DelayBufferObject.Buffer(cfg);
      seqNo, run := 1, [];
    }

    method NextSeq() returns (n: usize)
      modifies this`seqNo
      ensures n == old(seqNo) && seqNo == WrappingAdd(n, 1)
    {
      n := seqNo;
      seqNo := WrappingAdd(seqNo, 1);
    }

    ghost method Record(c: Call)
      requires Proper(run) && ProperCall(c) && buffer.Valid()
      requires buffer.trace == Events(buffer.cfg, run) + CallEvents(buffer.cfg, Events(buffer.cfg, run), c)
      modifies this`run
      ensures Valid() && run == old(run) + [c]
    {
      run := run + [c];
      assert Front(run) == old(run) && Last(run) == c;
    }

    /** Classifies a flow: at most one unit; a full buffer refuses it and stays as it was. */
    method ClassifyCaptured(flow: CapturedFlow, now: nat) returns (r: Result<seq<AnalysisUnit>, ClassifyError>)
      requires Valid() && |BodyBytes(flow.payload)| <= ISIZE_MAX
      modifies this, buffer
      ensures Valid() && run == old(run) + [Classified(flow, now)]
      ensures var a := Answer(buffer.cfg, old(buffer.Current()), flow, ClassifyFlow(flow));
              r == if a.Err? then Err(a.error) else Ok(if a.value.Some? then [a.value.value] else [])
      ensures r.Err? ==> buffer.Current() == old(buffer.Current())
      ensures buffer.Current() == Absorbed(buffer.cfg, old(buffer.Current()), flow, ClassifyFlow(flow), now)
      ensures var body := BodyBytes(flow.payload);
              var media, full := InlineMedia(body, MimeOf(flow.payload), 0, 0, 0),
                                 NoRoom(buffer.cfg, old(buffer.Current()), |body|);
              && (ClassifyKinds.SaysText(flow) ==>
                    r == Ok([TextUnit(TextSpan(body, flow.appOrHost, "flow-" + Decimal.Of(flow.flowId), false))]))
              && (ClassifyKinds.SaysImage(flow) ==> r == Ok([ImageUnit(media)]))
              && (ClassifyKinds.SaysAudio(flow) ==> r == Ok([AudioUnit(media)]))
              && (ClassifyKinds.SaysVideo(flow) && body != [] ==>
                    && (r.Err? <==> full)
                    && (!full ==> r == Ok([VideoSegment(media, if flow.channel.LiveStream? then 3_000 else 0,
                                                        Some(old(buffer.nextId)))])))
              && (!HasUnit(flow) ==> r == Ok([]))
      ensures var body, live := BodyBytes(flow.payload), flow.channel.LiveStream?;
              var deadline := now + (if live then buffer.cfg.liveDelayMs else buffer.cfg.vodBudgetMs) * 1_000_000;
              buffer.queue
              == if ClassifyKinds.SaysVideo(flow) && body != [] && r.Ok?
                 then old(buffer.queue) + [Segment(old(buffer.nextId), body, live, now, deadline, Pending)]
                 else old(buffer.queue)
    {
      BufferedExactly(buffer.cfg, buffer.Current(), flow, now);
      UnitExactly(buffer.cfg, buffer.Current(), flow);
      r := ClassifyAndBuild(flow, now);
    }

    method ClassifyAndBuild(flow: CapturedFlow, now: nat) returns (r: Result<seq<AnalysisUnit>, ClassifyError>)
      requires Valid() && |BodyBytes(flow.payload)| <= ISIZE_MAX
      modifies this, buffer
      ensures Valid() && run == old(run) + [Classified(flow, now)]
      ensures var a := Answer(buffer.cfg, old(buffer.Current()), flow, ClassifyFlow(flow));
              r == if a.Err? then Err(a.error) else Ok(if a.value.Some? then [a.value.value] else [])
      ensures r.Err? ==> buffer.Current() == old(buffer.Current())
      ensures buffer.Current() == Absorbed(buffer.cfg, old(buffer.Current()), flow, ClassifyFlow(flow), now)
    {
      var n := NextSeq();
      r := BuildUnits(flow, ClassifyFlow(flow), now);
      AfterCall(buffer.cfg, old(buffer.trace), flow, now);
      Record(Classified(flow, now));
    }

    method BuildUnits(flow: CapturedFlow, class_: Classification, now: nat)
      returns (r: Result<seq<AnalysisUnit>, ClassifyError>)
      requires buffer.Valid() && |BodyBytes(flow.payload)| <= ISIZE_MAX
      modifies buffer
      ensures buffer.Valid()
      ensures var a := Answer(buffer.cfg, old(buffer.Current()), flow, class_);
              r == if a.Err? then Err(a.error) else Ok(if a.value.Some? then [a.value.value] else [])
      ensures r.Err? ==> buffer.Current() == old(buffer.Current())
      ensures var live, body := Buffers(flow, class_), BodyBytes(flow.payload);
              var full := IsFullFor(buffer.cfg, After(buffer.cfg, old(buffer.trace)), |body|);
              buffer.trace == old(buffer.trace) + if live.None? then [] else [Admission(body, live.value, now, !full)]
      ensures var body := BodyBytes(flow.payload);
              class_.disposition.PassThrough? && class_.kind.VideoKind? && body != [] ==>
                && buffer.trace == old(buffer.trace) + [Admission(body, false, now, r.Ok?)]
                && (r.Ok? ==> |r.value| == 1 && r.value[0].VideoSegment? && r.value[0].deadlineMs == 0)
    {
      var body := BodyBytes(flow.payload);
      match class_.disposition {
        case Manifest(_) =>
          r := Ok([]);
        case Other =>
          r := Ok([]);
        case PassThrough =>
          match class_.kind {
            case TextKind =>
              r := Ok([TextUnit(TextSpanOf(flow))]);
            case ImageKind =>
              r := Ok([ImageUnit(Inline(body, MimeOf(flow.payload)))]);
            case AudioKind =>
              r := Ok([AudioUnit(Inline(body, MimeOf(flow.payload)))]);
            case VideoKind =>
              r := BufferVideo(flow, body, false, now);
            case UnspecifiedKind =>
              r := Ok([]);
          }
        case BufferSegment(live) =>
          r := BufferVideo(flow, body, live, now);
      }
    }

    method BufferVideo(flow: CapturedFlow, body: Bytes, live: bool, now: nat)
      returns (r: Result<seq<AnalysisUnit>, ClassifyError>)
      requires buffer.Valid() && body == BodyBytes(flow.payload) && |body| <= ISIZE_MAX
      modifies buffer
      ensures buffer.Valid()
      ensures body == [] ==> r == Ok([]) && buffer.trace == old(buffer.trace)
      ensures body != [] ==>
                var full := IsFullFor(buffer.cfg, old(buffer.Current()), |body|);
                && buffer.trace == old(buffer.trace) + [Admission(body, live, now, !full)]
                && r == if full then Err(BufferFull(flow.flowId, |body|, |old(buffer.queue)|, old(buffer.heldBytes)))
                        else Ok([VideoUnit(flow, live, old(buffer.nextId))])
      ensures r.Err? ==> buffer.Current() == old(buffer.Current())
    {
      if body == [] { return Ok([]); }
      var deadlineMs := if live then LIVE_DELAY_MS else 0;
      var admission := buffer.AdmitAt(body, live, now);
      match admission {
        case Admitted(id) =>
          r := Ok([VideoSegment(Inline(body, MimeOf(flow.payload)), deadlineMs, Some(id))]);
        case BackPressure =>
          assert buffer.Current().queue == old(buffer.Current().queue);
          r := Err(BufferFull(flow.flowId, |body|, |buffer.queue|, buffer.heldBytes));
      }
    }

    /** A verdict for a unit's ticket: answered from that unit's own bytes while the ticket waits. */
    method Apply(segmentId: nat, action: Action, rewritten: Option<Bytes>, now: nat)
      returns (r: Result<Released, FlowError>)
      requires Valid()
      modifies this, buffer
      ensures Valid() && run == old(run) + [BufferCall(Verdict(segmentId, action, rewritten, now))]
      ensures var t := Events(buffer.cfg, old(run));
              r == if DelayBufferLaws.IsPending(buffer.cfg, t, segmentId)
                   then
                     var bytes := Tickets(buffer.cfg, t)[segmentId - 1].bytes;
                     match action
                     case Block => Ok(Dropped)
                     case Allow | Warn | Log => Ok(Forward(bytes))
                     case Blur | Mute => Ok(Forward(if rewritten.Some? then rewritten.value else bytes))
                     case Unspecified => Ok(StillHeld)
                   else Err(SegmentNotFound(segmentId))
      ensures buffer.Current() == DelayBuffer.Apply(old(buffer.Current()), segmentId, action, rewritten, now).0
    {
      DelayBufferLaws.Extend(buffer.cfg, buffer.trace, Verdict(segmentId, action, rewritten, now));
      r := buffer.ApplyVerdict(segmentId, action, rewritten, now);
      Record(BufferCall(Verdict(segmentId, action, rewritten, now)));
    }

    method DueSegments(now: nat) returns (overdue: seq<OverdueSegment>)
      requires Valid()
      modifies this, buffer
      ensures Valid() && run == old(run) + [BufferCall(Poll(now))]
      ensures overdue == DelayBufferLaws.DueSlots(Waiting(buffer.cfg, Events(buffer.cfg, old(run))), now)
      ensures forall o :: o in overdue <==> BufferTimes.TimeIsUp(buffer.cfg, Events(buffer.cfg, old(run)), o, now)
    {
      overdue := buffer.DueSegmentsAt(now);
      Record(BufferCall(Poll(now)));
    }

    method CurrentDelayMs(now: nat) returns (ms: u32)
      requires Valid()
      modifies this, buffer
      ensures Valid() && run == old(run) + [BufferCall(Query(now))]
      ensures DelayBufferLaws.AdmittedInOrder(buffer.cfg, Events(buffer.cfg, old(run))) ==>
                ms == AsU32(DelayBufferLaws.OldestAge(Waiting(buffer.cfg, Events(buffer.cfg, old(run))), now))
    {
      ms := buffer.CurrentDelayMsAt(now);
      Record(BufferCall(Query(now)));
    }
  }
}

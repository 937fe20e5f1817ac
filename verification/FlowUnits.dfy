/** What a run of the flow classifier emits (crates/bulwark-flow/src/classifier.rs): each call
    classifies a flow, admits a video segment to the delay buffer, and returns at most one
    analysis unit. A `Run` is the history of calls; the buffer's own history follows from it. */
module FlowUnits {
  import opened Base
  import opened Classify
  import opened DelayBuffer
  import ClassifyKinds
  import ClassifyLaws
  import Decimal
  import DelayBufferLaws

  const LIVE_DELAY_MS: u32 := 3_000

  /** Text travels as the bytes of the flow. */
  datatype TextSpan = TextSpan(text: Bytes, app: string, threadId: string, fromMinor: bool)

  datatype InlineMedia = InlineMedia(data: Bytes, mimeType: string, width: nat, height: nat, durationMs: nat)

  datatype AnalysisUnit =
    | TextUnit(span: TextSpan)
    | ImageUnit(media: InlineMedia)
    | AudioUnit(media: InlineMedia)
    | VideoSegment(media: InlineMedia, deadlineMs: u32, segmentId: Option<nat>)

  datatype ClassifyError = BufferFull(flowId: nat, len: nat, pending: nat, heldBytes: nat)

  // ----- One call -----

  function BodyBytes(p: Payload): Bytes {
    match p
    case Http(_, _, bodyPeek) => bodyPeek
    case StreamChunk(data, _, _) => data
  }

  function MimeOf(p: Payload): string {
    var mime := if p.Http? then ContentType(p.headers) else p.mimeType;
    if mime.Some? then mime.value else ""
  }

  function Inline(data: Bytes, mimeType: string): InlineMedia {
    InlineMedia(data, mimeType, 0, 0, 0)
  }

  function TextSpanOf(flow: CapturedFlow): TextSpan {
    TextSpan(BodyBytes(flow.payload), flow.appOrHost, "flow-" + Decimal.Of(flow.flowId), false)
  }

  /** The unit of a flow that is not buffered, if it has one. */
  function PlainUnit(flow: CapturedFlow, class_: Classification): Option<AnalysisUnit> {
    if !class_.disposition.PassThrough? then None
    else
      match class_.kind
      case TextKind => Some(TextUnit(TextSpanOf(flow)))
      case ImageKind => Some(ImageUnit(Inline(BodyBytes(flow.payload), MimeOf(flow.payload))))
      case AudioKind => Some(AudioUnit(Inline(BodyBytes(flow.payload), MimeOf(flow.payload))))
      case _ => None
  }

  function VideoUnit(flow: CapturedFlow, live: bool, id: nat): AnalysisUnit {
    VideoSegment(Inline(BodyBytes(flow.payload), MimeOf(flow.payload)), if live then LIVE_DELAY_MS else 0, Some(id))
  }

  /** Whether a flow goes through the buffer, and then whether it is live. */
  function Buffers(flow: CapturedFlow, class_: Classification): Option<bool> {
    if BodyBytes(flow.payload) == [] then None
    else if class_.disposition.BufferSegment? then Some(class_.disposition.live)
    else if class_.disposition.PassThrough? && class_.kind.VideoKind? then Some(false)
    else None
  }

  function Answer(cfg: Config, s: State, flow: CapturedFlow, class_: Classification)
    : Result<Option<AnalysisUnit>, ClassifyError>
  {
    var live, body := Buffers(flow, class_), BodyBytes(flow.payload);
    if live.None? then Ok(PlainUnit(flow, class_))
    else if IsFullFor(cfg, s, |body|) then Err(BufferFull(flow.flowId, |body|, |s.queue|, s.heldBytes))
    else Ok(Some(VideoUnit(flow, live.value, s.nextId)))
  }

  /** The buffer after a flow has been classified. */
  function Absorbed(cfg: Config, s: State, flow: CapturedFlow, class_: Classification, now: nat): State {
    var live, body := Buffers(flow, class_), BodyBytes(flow.payload);
    if live.Some? && !IsFullFor(cfg, s, |body|) then Admit(cfg, s, body, live.value, now) else s
  }

  /** `channel_for_unit`. */
  function ChannelForUnit(unit: AnalysisUnit, fallback: SourceChannel): SourceChannel {
    match unit
    case TextUnit(_) => Web
    case VideoSegment(_, deadlineMs, _) => if deadlineMs > 0 then LiveStream else VideoStream
    case _ => fallback
  }

  // ----- The unit of each flow, by what it says -----

  /** The bytes of a flow, and the type it travels under. */
  lemma PayloadMeans(p: Payload)
    ensures p.Http? ==> BodyBytes(p) == p.bodyPeek
    ensures p.StreamChunk? ==> BodyBytes(p) == p.data
    ensures p.Http? && ContentType(p.headers).Some? ==> MimeOf(p) == ContentType(p.headers).value
    ensures p.StreamChunk? && p.mimeType.Some? ==> MimeOf(p) == p.mimeType.value
    ensures (p.Http? && ContentType(p.headers).None?) || (p.StreamChunk? && p.mimeType.None?) ==> MimeOf(p) == ""
  {
  }

  /** No room for the bytes, in segments or in bytes. */
  predicate NoRoom(cfg: Config, s: State, len: nat) {
    |s.queue| >= cfg.maxSegments || Min(s.heldBytes + len, 0xFFFF_FFFF_FFFF_FFFF) > cfg.maxBytes
  }

  /** A flow that is text, image or audio, or video with bytes. */
  predicate HasUnit(flow: CapturedFlow) {
    || ClassifyKinds.SaysText(flow) || ClassifyKinds.SaysImage(flow) || ClassifyKinds.SaysAudio(flow)
    || (ClassifyKinds.SaysVideo(flow) && BodyBytes(flow.payload) != [])
  }

  /** A flow goes through the buffer exactly if it says it is video and has bytes. */
  lemma BuffersWhen(flow: CapturedFlow)
    ensures Buffers(flow, ClassifyFlow(flow))
         == if ClassifyKinds.SaysVideo(flow) && BodyBytes(flow.payload) != []
            then Some(flow.channel.LiveStream?) else None
  {
    ClassifyKinds.KindExactly(flow);
    ClassifyLaws.ClassificationCoherent(flow);
  }

  lemma PlainWhen(flow: CapturedFlow)
    ensures var u, media := PlainUnit(flow, ClassifyFlow(flow)),
                            InlineMedia(BodyBytes(flow.payload), MimeOf(flow.payload), 0, 0, 0);
            var span := TextSpan(BodyBytes(flow.payload), flow.appOrHost, "flow-" + Decimal.Of(flow.flowId), false);
            && (ClassifyKinds.SaysText(flow) ==> u == Some(TextUnit(span)))
            && (ClassifyKinds.SaysImage(flow) ==> u == Some(ImageUnit(media)))
            && (ClassifyKinds.SaysAudio(flow) ==> u == Some(AudioUnit(media)))
            && (u.Some? ==> HasUnit(flow) && !ClassifyKinds.SaysVideo(flow))
  {
    ClassifyKinds.KindExactly(flow);
    ClassifyLaws.ClassificationCoherent(flow);
  }

  lemma OnlyOneKind(flow: CapturedFlow)
    ensures ClassifyKinds.SaysText(flow) || ClassifyKinds.SaysImage(flow) || ClassifyKinds.SaysAudio(flow) ==>
              !ClassifyKinds.SaysVideo(flow)
  {
    ClassifyKinds.KindExactly(flow);
  }

  /** A flow leaves as the unit of what it says it is, with its own bytes; video leaves under the next
      ticket of the buffer, or not at all if there is no room for it. */
  lemma UnitExactly(cfg: Config, s: State, flow: CapturedFlow)
    ensures var a, body := Answer(cfg, s, flow, ClassifyFlow(flow)), BodyBytes(flow.payload);
            var media := InlineMedia(body, MimeOf(flow.payload), 0, 0, 0);
            && (ClassifyKinds.SaysText(flow) ==>
                  a == Ok(Some(TextUnit(TextSpan(body, flow.appOrHost, "flow-" + Decimal.Of(flow.flowId), false)))))
            && (ClassifyKinds.SaysImage(flow) ==> a == Ok(Some(ImageUnit(media))))
            && (ClassifyKinds.SaysAudio(flow) ==> a == Ok(Some(AudioUnit(media))))
            && (ClassifyKinds.SaysVideo(flow) && body != [] && !NoRoom(cfg, s, |body|) ==>
                  a == Ok(Some(VideoSegment(media, if flow.channel.LiveStream? then 3_000 else 0, Some(s.nextId)))))
            && (ClassifyKinds.SaysVideo(flow) && body != [] && NoRoom(cfg, s, |body|) ==>
                  a == Err(BufferFull(flow.flowId, |body|, |s.queue|, s.heldBytes)))
            && (!HasUnit(flow) ==> a == Ok(None))
  {
    BuffersWhen(flow);
    PlainWhen(flow);
    OnlyOneKind(flow);
  }

  /** The buffer gains the bytes of a video flow it has room for, with the time they may wait, and
      nothing from any other flow. */
  lemma BufferedExactly(cfg: Config, s: State, flow: CapturedFlow, now: nat)
    ensures var queue, body := Absorbed(cfg, s, flow, ClassifyFlow(flow), now).queue, BodyBytes(flow.payload);
            var live := flow.channel.LiveStream?;
            var deadline := now + (if live then cfg.liveDelayMs else cfg.vodBudgetMs) * 1_000_000;
            queue == if ClassifyKinds.SaysVideo(flow) && body != [] && !NoRoom(cfg, s, |body|)
                     then s.queue + [Segment(s.nextId, body, live, now, deadline, Pending)] else s.queue
  {
    BuffersWhen(flow);
  }

  // ----- Runs -----

  datatype Call =
    | Classified(flow: CapturedFlow, now: nat)
    | BufferCall(event: Event)

  type Run = seq<Call>

  /** Admissions come from classifying only, and bodies fit in memory. */
  predicate ProperCall(c: Call) {
    match c
    case Classified(flow, _) => |BodyBytes(flow.payload)| <= ISIZE_MAX
    case BufferCall(e) => !e.Admission?
  }

  predicate Proper(run: Run) {
    run == [] || (Proper(Front(run)) && ProperCall(Last(run)))
  }

  /** What one call does to a buffer with history `t`. */
  function CallEvents(cfg: Config, t: Trace, c: Call): Trace {
    match c
    case BufferCall(e) => [e]
    case Classified(flow, now) =>
      var live, body := Buffers(flow, ClassifyFlow(flow)), BodyBytes(flow.payload);
      if live.None? then [] else [Admission(body, live.value, now, !IsFullFor(cfg, After(cfg, t), |body|))]
  }

  /** The buffer's history under a run. */
  function Events(cfg: Config, run: Run): Trace {
    if run == [] then [] else Events(cfg, Front(run)) + CallEvents(cfg, Events(cfg, Front(run)), Last(run))
  }

  function CallVideo(cfg: Config, t: Trace, c: Call): seq<AnalysisUnit> {
    if c.BufferCall? then []
    else
      var r := Answer(cfg, After(cfg, t), c.flow, ClassifyFlow(c.flow));
      if r.Ok? && r.value.Some? && r.value.value.VideoSegment? then [r.value.value] else []
  }

  /** The video units a run has emitted, in order. */
  function Videos(cfg: Config, run: Run): seq<AnalysisUnit> {
    if run == [] then [] else Videos(cfg, Front(run)) + CallVideo(cfg, Events(cfg, Front(run)), Last(run))
  }

  // ----- The buffer's history -----

  lemma ExtendByCall(cfg: Config, t: Trace, c: Call)
    requires Legal(cfg, t) && ProperCall(c)
    ensures Legal(cfg, t + CallEvents(cfg, t, c))
  {
    var es := CallEvents(cfg, t, c);
    if es == [] {
      assert t + es == t;
    } else {
      DelayBufferLaws.Extend(cfg, t, es[0]);
      assert es == [es[0]];
    }
  }

  lemma {:induction false} EventsLegal(cfg: Config, run: Run)
    requires Proper(run)
    ensures Legal(cfg, Events(cfg, run))
  {
    if run != [] {
      EventsLegal(cfg, Front(run));
      ExtendByCall(cfg, Events(cfg, Front(run)), Last(run));
    }
  }

  // ----- Video units and tickets are the same thing -----

  /** A unit carries its ticket, the ticket's bytes, and a deadline exactly when it is live. */
  predicate Carries(unit: AnalysisUnit, ticket: Ticket) {
    && unit.VideoSegment? && unit.segmentId == Some(ticket.id) && unit.media.data == ticket.bytes
    && unit.deadlineMs == if ticket.live then LIVE_DELAY_MS else 0
  }

  predicate AllCarry(units: seq<AnalysisUnit>, tickets: seq<Ticket>) {
    |units| == |tickets| && forall k :: 0 <= k < |units| ==> Carries(units[k], tickets[k])
  }

  /** One call emits a video unit exactly when it issues a ticket. */
  lemma CallCarries(cfg: Config, t: Trace, c: Call, units: seq<AnalysisUnit>)
    requires ProperCall(c) && AllCarry(units, Tickets(cfg, t)) && After(cfg, t).nextId == |Tickets(cfg, t)| + 1
    ensures AllCarry(units + CallVideo(cfg, t, c), Tickets(cfg, t + CallEvents(cfg, t, c)))
  {
    var es := CallEvents(cfg, t, c);
    if es == [] {
      assert t + es == t && units + [] == units;
    } else {
      DelayBufferLaws.Extend(cfg, t, es[0]);
      assert es == [es[0]];
    }
  }

  /** In every run the video units emitted are exactly the tickets issued, one for one and in
      order, each with its own bytes. */
  lemma {:induction false} VideosAreTickets(cfg: Config, run: Run)
    requires Proper(run)
    ensures AllCarry(Videos(cfg, run), Tickets(cfg, Events(cfg, run)))
  {
    if run != [] {
      VideosAreTickets(cfg, Front(run));
      DelayBufferLaws.AlwaysNumbered(cfg, Events(cfg, Front(run)));
      CallCarries(cfg, Events(cfg, Front(run)), Last(run), Videos(cfg, Front(run)));
    }
  }

  /** The unit's bytes are in the buffer under its ticket, unless a verdict has settled that. */
  predicate HeldOrSettled(cfg: Config, t: Trace, unit: AnalysisUnit, id: nat) {
    && unit.VideoSegment? && unit.segmentId == Some(id)
    && var found := Find(After(cfg, t).queue, id);
       if Settlement(cfg, t, id).Some? then found.None?
       else found.Some? && found.value.bytes == unit.media.data && (found.value.live <==> unit.deadlineMs > 0)
  }

  lemma CarriedIsHeld(cfg: Config, t: Trace, unit: AnalysisUnit, k: nat)
    requires k < |Tickets(cfg, t)| && Carries(unit, Tickets(cfg, t)[k])
    ensures HeldOrSettled(cfg, t, unit, k + 1)
  {
    DelayBufferLaws.TicketIds(cfg, t, k);
    DelayBufferLaws.FindWaiting(cfg, t, k + 1);
  }

  /** Nothing slips past: this holds in every reachable state, for each video unit emitted so far. */
  lemma HeldUntilSettled(cfg: Config, run: Run, k: nat)
    requires Proper(run) && k < |Videos(cfg, run)|
    ensures HeldOrSettled(cfg, Events(cfg, run), Videos(cfg, run)[k], k + 1)
  {
    VideosAreTickets(cfg, run);
    CarriedIsHeld(cfg, Events(cfg, run), Videos(cfg, run)[k], k);
  }

  lemma {:induction false} TicketDeadline(cfg: Config, t: Trace, k: nat)
    requires k < |Tickets(cfg, t)|
    ensures var ticket := Tickets(cfg, t)[k]; ticket.deadline == Deadline(cfg, ticket.live, ticket.admittedAt)
  {
    if k < |Tickets(cfg, Front(t))| { TicketDeadline(cfg, Front(t), k); }
  }

  /** The deadline a live unit reports is the one its ticket waits for exactly when the buffer
      is configured with the classifier's own delay. */
  lemma LiveDeadlinesAgree(cfg: Config, run: Run, k: nat)
    requires Proper(run) && k < |Videos(cfg, run)|
    ensures var unit := Videos(cfg, run)[k];
            && k < |Tickets(cfg, Events(cfg, run))|
            && var ticket := Tickets(cfg, Events(cfg, run))[k];
               unit.VideoSegment? && (ticket.live ==>
                 (ticket.deadline == ticket.admittedAt + unit.deadlineMs * NANOS_PER_MS
                  <==> cfg.liveDelayMs == LIVE_DELAY_MS))
  {
    VideosAreTickets(cfg, run);
    assert Carries(Videos(cfg, run)[k], Tickets(cfg, Events(cfg, run))[k]);
    TicketDeadline(cfg, Events(cfg, run), k);
  }

  // ----- Channels -----

  /** A chunk whose declared or assumed video says nothing about its channel. */
  predicate KeepsItsChannel(flow: CapturedFlow) {
    && flow.payload.StreamChunk?
    && var mime, url, data := flow.payload.mimeType, flow.payload.url, flow.payload.data;
       || (mime.Some? && "video/" <= StripParams(mime.value))
       || (&& (mime.None? || !("audio/" <= StripParams(mime.value)))
           && ClassifyKinds.EndsUnknown(url) && ClassifyKinds.NoSignature(data))
  }

  lemma ChunkChannel(channel: SourceChannel, declared: Option<Family>, extension: Option<Family>, magic: Option<Family>)
    requires ChunkOf(channel, declared, extension, magic).kind.VideoKind?
    ensures ChunkOf(channel, declared, extension, magic).channel
         == if declared == Some(VideoFamily) || (declared.None? && extension.None? && magic.None?) then channel
            else PromoteVideo(channel)
  {
  }

  lemma HttpChannel(channel: SourceChannel, body: Bytes, declared: Option<Family>, magic: Option<Family>,
                    extension: Option<Family>, textual: bool)
    requires HttpOf(channel, SniffManifest(body, channel), declared, magic, extension, textual).kind.VideoKind?
    ensures HttpOf(channel, SniffManifest(body, channel), declared, magic, extension, textual).channel
         == PromoteVideo(channel)
  {
  }

  lemma VideoChannel(flow: CapturedFlow)
    requires ClassifyFlow(flow).kind.VideoKind?
    ensures ClassifyFlow(flow).channel == if KeepsItsChannel(flow) then flow.channel else PromoteVideo(flow.channel)
  {
    match flow.payload {
      case Http(path, headers, body) =>
        var ct := ContentType(headers);
        HttpChannel(flow.channel, body, if ct.Some? then DeclaredFamily(ct.value) else None, MagicFamily(body),
          ExtensionFamily(if path.Some? then path.value else ""),
          (ct.Some? && IsTextualCt(ct.value)) || HtmlLike(body));
      case StreamChunk(data, mime, url) =>
        ClassifyKinds.SignedBy(data);
        ClassifyKinds.EndsBy(url);
        ChunkChannel(flow.channel, ChunkDeclared(mime),
          if url.Some? then ExtensionFamily(url.value) else None, MagicFamily(data));
    }
  }

  /** A video unit has a deadline exactly when its flow was classified live, which is exactly
      when it was captured live; and `channel_for_unit` reports the classified channel except
      for a chunk off the streaming channels that keeps the channel it came on. */
  lemma ChannelReport(cfg: Config, s: State, flow: CapturedFlow, fallback: SourceChannel)
    requires var r := Answer(cfg, s, flow, ClassifyFlow(flow)); r.Ok? && r.value.Some? && r.value.value.VideoSegment?
    ensures var c, unit := ClassifyFlow(flow), Answer(cfg, s, flow, ClassifyFlow(flow)).value.value;
            && (unit.deadlineMs > 0 <==> c.channel.LiveStream?)
            && (unit.deadlineMs > 0 <==> flow.channel.LiveStream?)
            && ((ChannelForUnit(unit, fallback) == c.channel) <==>
                  (flow.channel.LiveStream? || flow.channel.VideoStream? || !KeepsItsChannel(flow)))
  {
    ClassifyLaws.ClassificationCoherent(flow);
    VideoChannel(flow);
  }

  /** Every other unit is reported on its classified channel when that is the fallback. */
  lemma PlainChannelReport(flow: CapturedFlow)
    requires PlainUnit(flow, ClassifyFlow(flow)).Some?
    ensures ChannelForUnit(PlainUnit(flow, ClassifyFlow(flow)).value, flow.channel) == ClassifyFlow(flow).channel
  {
    ClassifyLaws.ClassificationCoherent(flow);
  }
}

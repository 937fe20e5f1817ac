/** The client's flow loop (crates/bulwark-client/src/lib.rs) over the classifier and its
    buffer: each flow is classified, judged, answered on the network side, and its video
    segment released from the buffer. What the judges and the policy decide is arbitrary. */
module ClientPipeline {
  import opened Base
  import opened Classify
  import opened DelayBuffer
  import opened FlowUnits
  import ClassifyKinds
  import DelayBufferLaws
  import FlowClassifier

  datatype InterceptDecision = PassOn | Rewrite(bytes: Bytes) | DropFlow

  function ActionToDecision(action: Action, rewritten: Option<Bytes>): InterceptDecision {
    match action
    case Block => DropFlow
    case Blur | Mute => if rewritten.Some? then Rewrite(rewritten.value) else DropFlow
    case _ => PassOn
  }

  // ----- The two sides of a verdict -----

  /** The bytes the network side lets through, if any. */
  function NetworkBytes(d: InterceptDecision, original: Bytes): Option<Bytes> {
    match d
    case PassOn => Some(original)
    case Rewrite(bytes) => Some(bytes)
    case DropFlow => None
  }

  /** The bytes the buffer lets through, if any. */
  function BufferBytes(r: Released): Option<Bytes> {
    match r
    case Forward(bytes) => Some(bytes)
    case Dropped => None
    case StillHeld => None
  }

  /** The network and the buffer let the same bytes through exactly when the policy decided
      something and every blur or mute came with its rewritten media. */
  lemma SidesAgree(action: Action, rewritten: Option<Bytes>, original: Bytes)
    ensures var d, r := ActionToDecision(action, rewritten), Outcome(action, rewritten, original);
            NetworkBytes(d, original) == BufferBytes(r)
            <==> !action.Unspecified? && ((action.Blur? || action.Mute?) ==> rewritten.Some?)
  {
  }

  // ----- One flow, and runs of flows -----

  /** A flow as the buffer sees it: whether it is video and then live, its bytes, what was
      decided about it, whether the interceptor took the decision, and when. */
  datatype Handled = Handled(live: Option<bool>, body: Bytes, action: Action, rewritten: Option<Bytes>,
                             interceptOk: bool, now: nat, later: nat)

  /** The buffer has no room for the flow's segment. */
  predicate Refuses(cfg: Config, s: State, e: Handled) {
    e.live.Some? && IsFullFor(cfg, s, |e.body|)
  }

  predicate Admits(cfg: Config, s: State, e: Handled) {
    e.live.Some? && !IsFullFor(cfg, s, |e.body|)
  }

  function AfterClassifying(cfg: Config, s: State, e: Handled): State {
    if Admits(cfg, s, e) then Admit(cfg, s, e.body, e.live.value, e.now) else s
  }

  /** The buffer after one flow: an interceptor error returns before the segment is released. */
  function AfterFlow(cfg: Config, s: State, e: Handled): State {
    var a := AfterClassifying(cfg, s, e);
    if Admits(cfg, s, e) && e.interceptOk then Apply(a, s.nextId, e.action, e.rewritten, e.later).0 else a
  }

  function AfterFlows(cfg: Config, flows: seq<Handled>): State {
    if flows == [] then Initial else AfterFlow(cfg, AfterFlows(cfg, Front(flows)), Last(flows))
  }

  /** A segment that was admitted and then never released. */
  predicate Leaks(cfg: Config, s: State, e: Handled) {
    Admits(cfg, s, e) && (!e.interceptOk || e.action.Unspecified?)
  }

  /** What such a flow leaves in the buffer: its own segment, held if the policy was undecided. */
  function Leaked(cfg: Config, s: State, e: Handled): Segment
    requires e.live.Some?
  {
    Segment(s.nextId, e.body, e.live.value, e.now, Deadline(cfg, e.live.value, e.now),
            if e.interceptOk then Held else Pending)
  }

  /** The leaked segments of a run, in the order of its flows. */
  function LeakedSegments(cfg: Config, flows: seq<Handled>): seq<Segment> {
    if flows == [] then []
    else
      var past, s, e := LeakedSegments(cfg, Front(flows)), AfterFlows(cfg, Front(flows)), Last(flows);
      if Leaks(cfg, s, e) then past + [Leaked(cfg, s, e)] else past
  }

  // ----- What stays in the buffer -----

  lemma {:induction false} WithoutLast(queue: seq<Segment>, lo: nat, seg: Segment)
    requires DelayBufferLaws.Increasing(queue, lo, seg.id)
    ensures Without(queue + [seg], seg.id) == queue && Find(queue + [seg], seg.id) == Some(seg)
  {
    if queue != [] {
      assert (queue + [seg])[1..] == queue[1..] + [seg];
      WithoutLast(queue[1..], queue[0].id + 1, seg);
    }
  }

  /** Taking off what was added gives the old count back, wrapped or not. */
  lemma WrapsBack(held: usize, len: nat)
    ensures WrappingSub(WrappingAdd(held, len), len) == held
  {
    var k := (held + len) / USIZE_RANGE;
    assert WrappingAdd(held, len) == held + len - k * USIZE_RANGE;
    ModOfShift(WrappingAdd(held, len) - len, held, k);
  }

  lemma {:induction false} ModOfShift(x: int, held: usize, k: nat)
    requires x == held - k * USIZE_RANGE
    ensures x % USIZE_RANGE == held
    decreases k
  {
    if k > 0 {
      ModOfShift(x + USIZE_RANGE, held, k - 1);
      OneTurn(x);
    }
  }

  lemma OneTurn(x: int)
    ensures (x + USIZE_RANGE) % USIZE_RANGE == x % USIZE_RANGE
  {
  }

  lemma {:induction false} HoldLast(queue: seq<Segment>, lo: nat, seg: Segment)
    requires DelayBufferLaws.Increasing(queue, lo, seg.id)
    ensures WithHeld(queue + [seg], seg.id) == queue + [seg.(state := Held)]
  {
    if queue != [] {
      assert (queue + [seg])[1..] == queue[1..] + [seg];
      HoldLast(queue[1..], queue[0].id + 1, seg);
    }
  }

  lemma {:induction false} IncreasingLater(queue: seq<Segment>, lo: nat, hi: nat)
    requires DelayBufferLaws.Increasing(queue, lo, hi)
    ensures DelayBufferLaws.Increasing(queue, lo, hi + 1)
  {
    if queue != [] { IncreasingLater(queue[1..], queue[0].id + 1, hi); }
  }

  /** One flow adds exactly the segment it leaks and nothing else. */
  lemma FlowEffect(cfg: Config, s: State, e: Handled)
    requires DelayBufferLaws.Increasing(s.queue, 1, s.nextId)
    ensures var s' := AfterFlow(cfg, s, e);
            && DelayBufferLaws.Increasing(s'.queue, 1, s'.nextId)
            && s'.queue == (if Leaks(cfg, s, e) then s.queue + [Leaked(cfg, s, e)] else s.queue)
            && s'.heldBytes == (if Leaks(cfg, s, e) then WrappingAdd(s.heldBytes, |e.body|) else s.heldBytes)
  {
    if Admits(cfg, s, e) {
      var a := AfterClassifying(cfg, s, e);
      var seg := Last(a.queue);
      assert a.queue == s.queue + [seg] && seg.id == s.nextId;
      DelayBufferLaws.IncreasingMore(s.queue, 1, seg);
      DelayBufferLaws.IncreasingMore(s.queue, 1, seg.(state := Held));
      WithoutLast(s.queue, 1, seg);
      HoldLast(s.queue, 1, seg);
      WrapsBack(s.heldBytes, |seg.bytes|);
      IncreasingLater(s.queue, 1, s.nextId);
    }
  }

  lemma WrappedSum(a: nat, b: nat)
    ensures WrappingAdd(a % USIZE_RANGE, b) == (a + b) % USIZE_RANGE
  {
  }

  /** In every reachable state the pending segments are exactly the leaked ones, in order, for
      good: a flow whose decision was delivered and definite leaves the buffer as it found it. */
  lemma {:induction false} PendingAreLeaks(cfg: Config, flows: seq<Handled>)
    ensures var s := AfterFlows(cfg, flows);
            && DelayBufferLaws.Increasing(s.queue, 1, s.nextId)
            && s.queue == LeakedSegments(cfg, flows)
            && s.heldBytes == TotalBytes(LeakedSegments(cfg, flows)) % USIZE_RANGE
  {
    if flows != [] {
      PendingAreLeaks(cfg, Front(flows));
      var s, past := AfterFlows(cfg, Front(flows)), LeakedSegments(cfg, Front(flows));
      FlowEffect(cfg, s, Last(flows));
      if Leaks(cfg, s, Last(flows)) {
        DelayBufferLaws.BytesMore(past, Leaked(cfg, s, Last(flows)));
        WrappedSum(TotalBytes(past), |Last(flows).body|);
      }
    }
  }

  /** Every decision is definite and reaches the interceptor. */
  predicate Prompt(flows: seq<Handled>) {
    flows == [] || (Prompt(Front(flows)) && Last(flows).interceptOk && !Last(flows).action.Unspecified?)
  }

  lemma {:induction false} PromptNeverLeaks(cfg: Config, flows: seq<Handled>)
    requires Prompt(flows)
    ensures LeakedSegments(cfg, flows) == []
  {
    if flows != [] { PromptNeverLeaks(cfg, Front(flows)); }
  }

  /** After any number of promptly decided flows a video flow is refused only for being larger
      than the whole buffer, never because of the flows before it. */
  lemma PromptNeverBacksUp(cfg: Config, flows: seq<Handled>, e: Handled)
    requires Prompt(flows)
    ensures Refuses(cfg, AfterFlows(cfg, flows), e)
       <==> e.live.Some? && (cfg.maxSegments == 0 || Min(|e.body|, USIZE_MAX) > cfg.maxBytes)
  {
    PendingAreLeaks(cfg, flows);
    PromptNeverLeaks(cfg, flows);
  }

  /** Leaks are never made good: once as many segments have leaked as the buffer has places,
      every later video flow is refused, and nothing changes that. */
  lemma LeaksExhaustTheBuffer(cfg: Config, flows: seq<Handled>, e: Handled)
    requires |LeakedSegments(cfg, flows)| >= cfg.maxSegments && e.live.Some?
    ensures Refuses(cfg, AfterFlows(cfg, flows), e)
    ensures AfterFlows(cfg, flows + [e]) == AfterFlows(cfg, flows)
    ensures LeakedSegments(cfg, flows + [e]) == LeakedSegments(cfg, flows)
  {
    PendingAreLeaks(cfg, flows);
    assert Front(flows + [e]) == flows;
  }

  // ----- The client object -----

  function Seen(flow: CapturedFlow, action: Action, rewritten: Option<Bytes>, interceptOk: bool, now: nat, later: nat)
    : Handled
  {
    Handled(Buffers(flow, ClassifyFlow(flow)), BodyBytes(flow.payload), action, rewritten, interceptOk, now, later)
  }

  /** The buffer after a unit's segment, if it has one, got its verdict. */
  function AfterRelease(s: State, unit: AnalysisUnit, action: Action, rewritten: Option<Bytes>, later: nat): State {
    if unit.VideoSegment? && unit.segmentId.Some? then Apply(s, unit.segmentId.value, action, rewritten, later).0 else s
  }

  /** What an answer of the classifier means for the buffer, whatever the classification was. */
  lemma AnswerMeans(cfg: Config, s: State, flow: CapturedFlow, class_: Classification, e: Handled)
    requires e.live == Buffers(flow, class_) && e.body == BodyBytes(flow.payload)
    ensures var a := Answer(cfg, s, flow, class_);
            && (a.Err? <==> Refuses(cfg, s, e))
            && (a == Ok(None) <==> e.live.None? && PlainUnit(flow, class_).None?)
            && AfterClassifying(cfg, s, e) == Absorbed(cfg, s, flow, class_, e.now)
            && (a.Ok? && a.value.Some? ==>
                  AfterRelease(AfterClassifying(cfg, s, e), a.value.value, e.action, e.rewritten, e.later)
                  == AfterFlow(cfg, s, e.(interceptOk := true)))
            && (a.Ok? && (a.value.None? || !e.interceptOk) ==> AfterClassifying(cfg, s, e) == AfterFlow(cfg, s, e))
            && (a.Err? ==> AfterFlow(cfg, s, e) == s)
  {
  }

  /** A video flow the buffer has no room for. */
  predicate Overflows(s: State, cfg: Config, flow: CapturedFlow) {
    ClassifyKinds.SaysVideo(flow) && BodyBytes(flow.payload) != [] && NoRoom(cfg, s, |BodyBytes(flow.payload)|)
  }

  class Client {
    const classifier: FlowClassifier.DefaultFlowClassifier
    ghost var flows: seq<Handled>

    ghost predicate Valid()
      reads this, classifier, classifier.buffer
    {
      classifier.Valid() && classifier.buffer.Current() == AfterFlows(classifier.buffer.cfg, flows)
    }

    constructor (cfg: Config)
      ensures Valid() && flows == [] && classifier.buffer.cfg == cfg
      ensures fresh(classifier) && fresh(classifier.buffer)
    {
      classifier := new FlowClassifier.DefaultFlowClassifier(cfg);
      flows := [];
    }

    /** Handles one flow and reports what the interceptor was told: nothing when the flow has no
        unit, the policy's decision when it has one, and a drop when handling it failed. */
    method HandleFlow(flow: CapturedFlow, action: Action, rewritten: Option<Bytes>, interceptOk: bool,
                      now: nat, later: nat)
      returns (told: Option<InterceptDecision>)
      requires Valid() && |BodyBytes(flow.payload)| <= ISIZE_MAX
      modifies this, classifier, classifier.buffer
      ensures Valid() && flows == old(flows) + [Seen(flow, action, rewritten, interceptOk, now, later)]
      ensures told.None? <==> !HasUnit(flow)
      ensures HasUnit(flow) ==>
                told == if Overflows(old(classifier.buffer.Current()), classifier.buffer.cfg, flow) || !interceptOk
                        then Some(DropFlow)
                        else match action
                             case Block => Some(DropFlow)
                             case Blur | Mute => Some(if rewritten.Some? then Rewrite(rewritten.value) else DropFlow)
                             case Unspecified | Allow | Warn | Log => Some(PassOn)
    {
      var units := classifier.ClassifyCaptured(flow, now);
      ghost var e := Seen(flow, action, rewritten, interceptOk, now, later);
      told := AnswerClassified(units, flow, ClassifyFlow(flow), old(classifier.buffer.Current()), e,
                               action, rewritten, interceptOk, later);
      flows := flows + [e];
      assert Front(flows) == old(flows);
    }

    /** The part after classification, for any classification `class_` and buffer `s` before it. */
    method AnswerClassified(r: Result<seq<AnalysisUnit>, ClassifyError>, flow: CapturedFlow,
                            ghost class_: Classification, ghost s: State, ghost e: Handled,
                            action: Action, rewritten: Option<Bytes>, interceptOk: bool, later: nat)
      returns (told: Option<InterceptDecision>)
      requires classifier.Valid() && e.live == Buffers(flow, class_) && e.body == BodyBytes(flow.payload)
      requires e.action == action && e.rewritten == rewritten && e.interceptOk == interceptOk && e.later == later
      requires var a := Answer(classifier.buffer.cfg, s, flow, class_);
               r == if a.Err? then Err(a.error) else Ok(if a.value.Some? then [a.value.value] else [])
      requires classifier.buffer.Current() == Absorbed(classifier.buffer.cfg, s, flow, class_, e.now)
      modifies classifier, classifier.buffer
      ensures classifier.Valid() && classifier.buffer.Current() == AfterFlow(classifier.buffer.cfg, s, e)
      ensures r.Err? ==> told == Some(DropFlow)
      ensures r == Ok([]) ==> told == None
      ensures r.Ok? && r.value != [] ==>
                told == if !interceptOk then Some(DropFlow)
                        else match action
                             case Block => Some(DropFlow)
                             case Blur | Mute => Some(if rewritten.Some? then Rewrite(rewritten.value) else DropFlow)
                             case Unspecified | Allow | Warn | Log => Some(PassOn)
    {
      AnswerMeans(classifier.buffer.cfg, s, flow, class_, e);
      if r.Err? { return Some(DropFlow); }
      told := AnswerUnits(r.value, action, rewritten, interceptOk, later);
    }

    /** Tells the interceptor about each unit, then releases its segment. */
    method AnswerUnits(units: seq<AnalysisUnit>, action: Action, rewritten: Option<Bytes>, interceptOk: bool,
                       later: nat)
      returns (told: Option<InterceptDecision>)
      requires classifier.Valid() && |units| <= 1
      modifies classifier, classifier.buffer
      ensures classifier.Valid()
      ensures told == if units == [] then None
                      else if !interceptOk then Some(DropFlow)
                      else match action
                           case Block => Some(DropFlow)
                           case Blur | Mute => Some(if rewritten.Some? then Rewrite(rewritten.value) else DropFlow)
                           case Unspecified | Allow | Warn | Log => Some(PassOn)
      ensures var before := old(classifier.buffer.Current());
              classifier.buffer.Current()
              == if units != [] && interceptOk then AfterRelease(before, units[0], action, rewritten, later) else before
    {
      ghost var before := classifier.buffer.Current();
      told := None;
      for i := 0 to |units|
        invariant classifier.Valid()
        invariant i == 0 ==> told.None? && classifier.buffer.Current() == before
        invariant i > 0 ==> told == Some(ActionToDecision(action, rewritten)) && interceptOk
        invariant i > 0 ==> classifier.buffer.Current() == AfterRelease(before, units[0], action, rewritten, later)
      {
        if !interceptOk { return Some(DropFlow); }
        told := Some(ActionToDecision(action, rewritten));
        if units[i].VideoSegment? && units[i].segmentId.Some? {
          var released := classifier.Apply(units[i].segmentId.value, action, rewritten, later);
        }
      }
    }
  }
}

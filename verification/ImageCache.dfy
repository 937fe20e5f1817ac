/** The bounded first-in first-out cache of image scores and the image verdict computed
    through it (crates/bulwark-client/src/lib.rs). The model and the content hash are
    arbitrary functions. */
module ImageCache {
  import opened Base

  /** A model output; `NotFinite` stands for NaN and the infinities. */
  datatype Score = Finite(value: real) | NotFinite

  datatype State = State(scores: map<Bytes, real>, order: seq<Bytes>)

  const Empty: State := State(map[], [])

  /** `while scores.len() >= capacity`: drop the oldest. */
  function Evict(capacity: nat, s: State): State
    decreases |s.order|
  {
    if |s.scores| >= capacity && s.order != []
    then Evict(capacity, State(s.scores - {s.order[0]}, s.order[1..]))
    else s
  }

  function Insert(capacity: nat, s: State, hash: Bytes, score: real): State {
    if hash in s.scores then s.(scores := s.scores[hash := score])
    else
      var e := Evict(capacity, s);
      State(e.scores[hash := score], e.order + [hash])
  }

  /** What the pipeline is configured with. A `stub` model scores nothing. */
  datatype Model = Model(stub: bool, scorer: Bytes -> Score, hash: Bytes -> Bytes)

  /** The score used for an image: the cached one if its hash is cached, else a fresh one,
      which is cached if it is finite. */
  function Lookup(capacity: nat, m: Model, s: State, image: Bytes): (State, Score) {
    var h := m.hash(image);
    if h in s.scores then (s, Finite(s.scores[h]))
    else
      var score := m.scorer(image);
      (if score.Finite? then Insert(capacity, s, h, score.value) else s, score)
  }

  // ----- Verdicts -----

  datatype Category = Unspecified | Safe | AdultImage

  datatype Action = Allow | Block

  datatype Severity = Info | Low | Medium | High

  datatype Verdict = Verdict(category: Category, action: Action, severity: Severity, score: real)

  const NSFW_BLOCK_THRESHOLD: real := 0.7

  /** An execution failure: unknown, blocked, and never called safe. */
  const CoverageGap: Verdict := Verdict(Unspecified, Block, Medium, 0.0)

  function SeverityForScore(score: real): Severity {
    if score >= 0.7 then High else if score >= 0.5 then Medium else if score >= 0.3 then Low else Info
  }

  function VerdictFor(score: Score): Verdict {
    match score
    case NotFinite => CoverageGap
    case Finite(v) =>
      var category := if v >= NSFW_BLOCK_THRESHOLD then AdultImage else Safe;
      var action := if category.Safe? then Allow else Block;
      Verdict(category, action, if action.Block? then SeverityForScore(v) else Info, v)
  }

  function Analyze(capacity: nat, m: Model, s: State, image: Bytes): (State, Verdict) {
    if m.stub then (s, CoverageGap)
    else
      var (s', score) := Lookup(capacity, m, s, image);
      (s', VerdictFor(score))
  }

  /** The verdict with no cache at all. */
  function AnalyzeUncached(m: Model, image: Bytes): Verdict {
    if m.stub then CoverageGap else VerdictFor(m.scorer(image))
  }

  /** Over a cache that holds no other image's score an image passes exactly when a model scored
      it, finitely and below the threshold; one that no model scored is never called safe. */
  lemma AllowedOverFaithful(capacity: nat, m: Model, s: State, image: Bytes)
    requires Faithful(m, s)
    ensures var v := Analyze(capacity, m, s, image).1;
            && (v.action.Allow? <==> !m.stub && m.scorer(image).Finite? && m.scorer(image).value < 0.7)
            && (v.category.Safe? <==> v.action.Allow?)
            && (v.category.Unspecified? <==> m.stub || m.scorer(image).NotFinite?)
            && (v.category.AdultImage? ==> v.severity.High?)
  {
    assert m.hash(image) in s.scores ==> m.scorer(image) == Finite(s.scores[m.hash(image)]);
  }

  // ----- Runs -----

  function After(capacity: nat, m: Model, images: seq<Bytes>): State {
    if images == [] then Empty else Analyze(capacity, m, After(capacity, m, Front(images)), Last(images)).0
  }

  function Verdicts(capacity: nat, m: Model, images: seq<Bytes>): seq<Verdict> {
    if images == [] then []
    else
      var verdict := Analyze(capacity, m, After(capacity, m, Front(images)), Last(images)).1;
      Verdicts(capacity, m, Front(images)) + [verdict]
  }

  function UncachedVerdicts(m: Model, images: seq<Bytes>): seq<Verdict> {
    if images == [] then [] else UncachedVerdicts(m, Front(images)) + [AnalyzeUncached(m, Last(images))]
  }

  /** Hashes in the order they entered the cache. */
  function Insertions(capacity: nat, m: Model, images: seq<Bytes>): seq<Bytes> {
    if images == [] then []
    else
      var past, s, image := Insertions(capacity, m, Front(images)), After(capacity, m, Front(images)), Last(images);
      if !m.stub && m.hash(image) !in s.scores && m.scorer(image).Finite? then past + [m.hash(image)] else past
  }

  // ----- The shape of the cache -----

  /** No hash twice. */
  predicate Distinct(order: seq<Bytes>) {
    order == [] || (order[0] !in order[1..] && Distinct(order[1..]))
  }

  /** The queue lists the cached hashes, each once, and no more than fit. */
  ghost predicate WellFormed(capacity: nat, s: State) {
    Distinct(s.order) && (forall h :: h in s.order <==> h in s.scores) && |s.order| <= capacity
  }

  lemma {:induction false} DistinctSize(order: seq<Bytes>, keys: set<Bytes>)
    requires Distinct(order) && forall h :: h in order <==> h in keys
    ensures |order| == |keys|
  {
    if order == [] {
      assert keys == {};
    } else {
      assert order == [order[0]] + order[1..];
      DistinctSize(order[1..], keys - {order[0]});
    }
  }

  lemma {:induction false} DistinctMore(order: seq<Bytes>, h: Bytes)
    requires Distinct(order) && h !in order
    ensures Distinct(order + [h])
  {
    if order != [] {
      assert order == [order[0]] + order[1..];
      DistinctMore(order[1..], h);
      assert (order + [h])[1..] == order[1..] + [h];
    }
  }

  /** On a well-formed cache eviction drops the oldest hash exactly when the cache is full. */
  lemma EvictsOldest(capacity: nat, s: State)
    requires capacity >= 1 && WellFormed(capacity, s)
    ensures Evict(capacity, s)
         == if |s.order| == capacity then State(s.scores - {s.order[0]}, s.order[1..]) else s
    ensures WellFormed(capacity - 1, Evict(capacity, s))
  {
    DistinctSize(s.order, s.scores.Keys);
    assert |s.scores.Keys| == |s.scores|;
    if |s.order| == capacity {
      var e := State(s.scores - {s.order[0]}, s.order[1..]);
      assert s.order == [s.order[0]] + s.order[1..];
      DistinctSize(e.order, e.scores.Keys);
      assert |e.scores.Keys| == |e.scores|;
    }
  }

  lemma InsertWellFormed(capacity: nat, s: State, hash: Bytes, score: real)
    requires capacity >= 1 && WellFormed(capacity, s)
    ensures WellFormed(capacity, Insert(capacity, s, hash, score))
    ensures hash !in s.scores ==>
              Insert(capacity, s, hash, score).order
              == (if |s.order| == capacity then s.order[1..] else s.order) + [hash]
  {
    if hash !in s.scores {
      EvictsOldest(capacity, s);
      var e := Evict(capacity, s);
      assert hash !in e.order;
      DistinctMore(e.order, hash);
    }
  }

  lemma SlideWindow(ins: seq<Bytes>, h: Bytes, order: seq<Bytes>, capacity: nat)
    requires capacity >= 1 && order == ins[|ins| - Min(capacity, |ins|)..]
    ensures var next, all := (if |order| == capacity then order[1..] else order) + [h], ins + [h];
            next == all[|all| - Min(capacity, |all|)..]
  {
  }

  /** The last `capacity` of the insertions. */
  function Window(ins: seq<Bytes>, capacity: nat): seq<Bytes> {
    ins[|ins| - Min(capacity, |ins|)..]
  }

  lemma InsertSlides(capacity: nat, s: State, h: Bytes, score: real, ins: seq<Bytes>)
    requires capacity >= 1 && WellFormed(capacity, s) && s.order == Window(ins, capacity)
    ensures WellFormed(capacity, Insert(capacity, s, h, score))
    ensures Insert(capacity, s, h, score).order == Window(if h in s.scores then ins else ins + [h], capacity)
  {
    InsertWellFormed(capacity, s, h, score);
    SlideWindow(ins, h, s.order, capacity);
  }

  /** In every reachable state the queue lists the cached hashes without repetition, within the
      capacity, and is the last insertions in order: eviction is first-in first-out. */
  lemma {:induction false} CacheIsFifo(capacity: nat, m: Model, images: seq<Bytes>)
    requires capacity >= 1
    ensures WellFormed(capacity, After(capacity, m, images))
    ensures After(capacity, m, images).order == Window(Insertions(capacity, m, images), capacity)
  {
    if images != [] {
      CacheIsFifo(capacity, m, Front(images));
      var s, image := After(capacity, m, Front(images)), Last(images);
      if m.scorer(image).Finite? {
        InsertSlides(capacity, s, m.hash(image), m.scorer(image).value, Insertions(capacity, m, Front(images)));
      }
    }
  }

  // ----- The cache is invisible exactly when the hash separates scores -----

  /** Images with one hash have one score. */
  ghost predicate HashSeparatesScores(m: Model) {
    forall a: Bytes, b: Bytes :: m.hash(a) == m.hash(b) ==> m.scorer(a) == m.scorer(b)
  }

  /** Every cached score is that of every image with its hash. */
  ghost predicate Faithful(m: Model, s: State) {
    forall b: Bytes :: m.hash(b) in s.scores ==> m.scorer(b) == Finite(s.scores[m.hash(b)])
  }

  lemma {:induction false} EvictKeepsScores(capacity: nat, s: State, h: Bytes)
    ensures h in Evict(capacity, s).scores ==> h in s.scores && Evict(capacity, s).scores[h] == s.scores[h]
    decreases |s.order|
  {
    if |s.scores| >= capacity && s.order != [] {
      EvictKeepsScores(capacity, State(s.scores - {s.order[0]}, s.order[1..]), h);
    }
  }

  lemma LookupFaithful(capacity: nat, m: Model, s: State, image: Bytes)
    requires HashSeparatesScores(m) && Faithful(m, s)
    ensures Faithful(m, Lookup(capacity, m, s, image).0) && Lookup(capacity, m, s, image).1 == m.scorer(image)
  {
    var s' := Lookup(capacity, m, s, image).0;
    forall b: Bytes | m.hash(b) in s'.scores
      ensures m.scorer(b) == Finite(s'.scores[m.hash(b)])
    {
      EvictKeepsScores(capacity, s, m.hash(b));
    }
  }

  lemma {:induction false} RunIsTransparent(capacity: nat, m: Model, images: seq<Bytes>)
    requires HashSeparatesScores(m)
    ensures Faithful(m, After(capacity, m, images))
    ensures Verdicts(capacity, m, images) == UncachedVerdicts(m, images)
  {
    if images != [] {
      RunIsTransparent(capacity, m, Front(images));
      LookupFaithful(capacity, m, After(capacity, m, Front(images)), Last(images));
    }
  }

  /** Two images under one hash with different scores make the cache visible. */
  lemma CollisionIsVisible(capacity: nat, m: Model, a: Bytes, b: Bytes)
    requires capacity >= 1 && !m.stub && m.hash(a) == m.hash(b) && m.scorer(a).Finite? && m.scorer(a) != m.scorer(b)
    ensures Verdicts(capacity, m, [a, b]) != UncachedVerdicts(m, [a, b])
  {
    assert Front([a, b]) == [a] && Front([a]) == [];
    var s := After(capacity, m, [a]);
    assert After(capacity, m, []) == Empty && Evict(capacity, Empty) == Empty;
    assert s == Analyze(capacity, m, Empty, a).0;
    assert s == Insert(capacity, Empty, m.hash(a), m.scorer(a).value);
    assert Last(Verdicts(capacity, m, [a, b])) == VerdictFor(m.scorer(a));
    assert Last(UncachedVerdicts(m, [a, b])) == VerdictFor(m.scorer(b));
  }

  /** Over every sequence of images the verdicts are those computed with no cache, exactly when
      images that share a hash share a score (or nothing is scored at all). */
  lemma CacheTransparency(capacity: nat, m: Model)
    requires capacity >= 1
    ensures (m.stub || HashSeparatesScores(m))
       <==> forall images: seq<Bytes> :: Verdicts(capacity, m, images) == UncachedVerdicts(m, images)
  {
    forall images: seq<Bytes> | m.stub || HashSeparatesScores(m)
      ensures Verdicts(capacity, m, images) == UncachedVerdicts(m, images)
    {
      if m.stub { StubIsTransparent(capacity, m, images); } else { RunIsTransparent(capacity, m, images); }
    }
    if !m.stub && !HashSeparatesScores(m) {
      var a: Bytes, b: Bytes :| m.hash(a) == m.hash(b) && m.scorer(a) != m.scorer(b);
      if m.scorer(a).Finite? { CollisionIsVisible(capacity, m, a, b); } else { CollisionIsVisible(capacity, m, b, a); }
    }
  }

  lemma {:induction false} StubIsTransparent(capacity: nat, m: Model, images: seq<Bytes>)
    requires m.stub
    ensures Verdicts(capacity, m, images) == UncachedVerdicts(m, images)
  {
    if images != [] { StubIsTransparent(capacity, m, Front(images)); }
  }

  // ----- What passes, in every reachable state -----

  /** The verdict on an image after any others. */
  function VerdictAfter(capacity: nat, m: Model, images: seq<Bytes>, image: Bytes): Verdict {
    Analyze(capacity, m, After(capacity, m, images), image).1
  }

  /** In every reachable state, if the hash separates scores, an image passes exactly when it was
      scored finitely and below the threshold, and one that no model scored is never called safe. */
  lemma AllowedOnlyIfScored(capacity: nat, m: Model, images: seq<Bytes>, image: Bytes)
    requires HashSeparatesScores(m)
    ensures var v := VerdictAfter(capacity, m, images, image);
            && (v.action.Allow? <==> !m.stub && Passes(m, image))
            && (v.category.Safe? <==> v.action.Allow?)
            && (v.category.Unspecified? <==> m.stub || m.scorer(image).NotFinite?)
            && (v.category.AdultImage? ==> v.severity.High?)
            && v == if m.stub || m.scorer(image).NotFinite? then Verdict(Unspecified, Block, Medium, 0.0)
                    else if m.scorer(image).value < 0.7 then Verdict(Safe, Allow, Info, m.scorer(image).value)
                    else Verdict(AdultImage, Block, High, m.scorer(image).value)
  {
    RunIsTransparent(capacity, m, images);
    AllowedOverFaithful(capacity, m, After(capacity, m, images), image);
  }

  predicate Passes(m: Model, image: Bytes) {
    m.scorer(image).Finite? && m.scorer(image).value < 0.7
  }

  /** Every cached score was the model's for some earlier image with that hash. */
  lemma {:induction false} CachedWasScored(capacity: nat, m: Model, images: seq<Bytes>, h: Bytes)
    requires h in After(capacity, m, images).scores
    ensures exists b :: b in images && ScoredAs(m, b, h, After(capacity, m, images).scores[h])
  {
    var past, image := After(capacity, m, Front(images)), Last(images);
    if m.hash(image) == h && h !in past.scores {
      assert ScoredAs(m, image, h, After(capacity, m, images).scores[h]);
    } else {
      EvictKeepsScores(capacity, past, h);
      CachedWasScored(capacity, m, Front(images), h);
      var b :| b in Front(images) && ScoredAs(m, b, h, past.scores[h]);
      assert b in images;
    }
  }

  predicate ScoredAs(m: Model, image: Bytes, h: Bytes, score: real) {
    m.hash(image) == h && m.scorer(image) == Finite(score)
  }

  /** Images with one hash, the first of them scored, pass together or not at all. */
  ghost predicate HashSeparatesPassing(m: Model) {
    forall a: Bytes, b: Bytes :: m.hash(a) == m.hash(b) && m.scorer(a).Finite? ==> (Passes(m, a) <==> Passes(m, b))
  }

  ghost predicate PassesRightly(capacity: nat, m: Model, images: seq<Bytes>, image: Bytes) {
    VerdictAfter(capacity, m, images, image).action.Allow? <==> !m.stub && Passes(m, image)
  }

  lemma AlwaysRightly(capacity: nat, m: Model, images: seq<Bytes>, image: Bytes)
    requires m.stub || HashSeparatesPassing(m)
    ensures PassesRightly(capacity, m, images, image)
  {
    var h, s := m.hash(image), After(capacity, m, images);
    if !m.stub && h in s.scores {
      CachedWasScored(capacity, m, images, h);
      var b :| b in images && ScoredAs(m, b, h, s.scores[h]);
      assert Passes(m, b) <==> s.scores[h] < NSFW_BLOCK_THRESHOLD;
    }
  }

  lemma WrongAfterOne(capacity: nat, m: Model, a: Bytes, b: Bytes)
    requires capacity >= 1 && !m.stub && m.hash(a) == m.hash(b) && m.scorer(a).Finite?
    requires !(Passes(m, a) <==> Passes(m, b))
    ensures !PassesRightly(capacity, m, [a], b)
  {
    assert Front([a]) == [] && After(capacity, m, []) == Empty && Evict(capacity, Empty) == Empty;
    var s := After(capacity, m, [a]);
    assert s == Insert(capacity, Empty, m.hash(a), m.scorer(a).value);
    assert s.scores[m.hash(b)] == m.scorer(a).value;
  }

  /** An image passes in every reachable state exactly by its own score if and only if no two
      images with one hash, the first scored, fall on different sides of the threshold. */
  lemma PassingExact(capacity: nat, m: Model)
    requires capacity >= 1
    ensures (forall images, image :: PassesRightly(capacity, m, images, image)) <==> m.stub || HashSeparatesPassing(m)
  {
    if m.stub || HashSeparatesPassing(m) {
      forall images, image ensures PassesRightly(capacity, m, images, image) {
        AlwaysRightly(capacity, m, images, image);
      }
    } else {
      var a: Bytes, b: Bytes :|
        m.hash(a) == m.hash(b) && m.scorer(a).Finite? && !(Passes(m, a) <==> Passes(m, b));
      WrongAfterOne(capacity, m, a, b);
    }
  }

  // ----- The cache object -----

  class ImageScoreCache {
    const capacity: nat
    var scores: map<Bytes, real>
    var order: seq<Bytes>

    ghost function Current(): State
      reads this
    {
      State(scores, order)
    }

    constructor (capacity: nat)
      ensures this.capacity == Max(capacity, 1) && Current() == Empty
    {
      this.capacity := if capacity > 1 then capacity else 1;
      scores, order := map[], [];
    }

    method InsertScore(hash: Bytes, score: real)
      modifies this
      ensures Current() == Insert(capacity, old(Current()), hash, score)
    {
      if hash in scores {
        scores := scores[hash := score];
        return;
      }
      while |scores| >= capacity
        invariant Evict(capacity, Current()) == Evict(capacity, old(Current()))
        decreases |order|
      {
        if order == [] {
          break;
        }
        scores, order := scores - {order[0]}, order[1..];
      }
      scores, order := scores[hash := score], order + [hash];
    }

    /** The verdict on one image, through the cache. */
    method AnalyzeImage(m: Model, image: Bytes) returns (v: Verdict)
      modifies this
      ensures (Current(), v) == Analyze(capacity, m, old(Current()), image)
    {
      if m.stub {
        return CoverageGap;
      }
      var hash := m.hash(image);
      var score;
      if hash in scores {
        score := Finite(scores[hash]);
      } else {
        score := m.scorer(image);
        if score.Finite? {
          InsertScore(hash, score.value);
        }
      }
      if score.NotFinite? {
        return CoverageGap;
      }
      v := VerdictFor(score);
    }
  }
}

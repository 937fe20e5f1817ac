/** Image verdicts under interleaving (crates/bulwark-client/src/lib.rs): the cache is locked for the
    lookup and again for the insertion, and other images may be looked up and inserted while the
    model scores. A history is the sequence of these locked sections. */
module ImageRace {
  import opened Base
  import opened ImageCache

  /** Where the analysis of one image stands. */
  datatype Call = Scoring(image: Bytes) | Answered(image: Bytes, verdict: Verdict)

  datatype Shared = Shared(cache: State, calls: map<nat, Call>)

  datatype Event =
    | Begin(call: nat, image: Bytes)  // the lookup; a hit, or a stub model, answers at once
    | Finish(call: nat)               // the model has scored; a finite score is inserted

  const Start: Shared := Shared(Empty, map[])

  predicate Enabled(s: Shared, e: Event) {
    match e
    case Begin(c, _) => c !in s.calls
    case Finish(c) => c in s.calls && s.calls[c].Scoring?
  }

  function Begun(m: Model, s: State, image: Bytes): Call {
    var h := m.hash(image);
    if m.stub then Answered(image, CoverageGap)
    else if h in s.scores then Answered(image, VerdictFor(Finite(s.scores[h])))
    else Scoring(image)
  }

  function Step(capacity: nat, m: Model, s: Shared, e: Event): Shared
    requires Enabled(s, e)
  {
    match e
    case Begin(c, image) => s.(calls := s.calls[c := Begun(m, s.cache, image)])
    case Finish(c) =>
      var image := s.calls[c].image;
      var score := m.scorer(image);
      Shared(if score.Finite? then Insert(capacity, s.cache, m.hash(image), score.value) else s.cache,
             s.calls[c := Answered(image, VerdictFor(score))])
  }

  /** The state after a history, if every event of it was possible in turn. */
  function AfterEvents(capacity: nat, m: Model, t: seq<Event>): Option<Shared> {
    if t == [] then Some(Start)
    else
      var before := AfterEvents(capacity, m, Front(t));
      if before.Some? && Enabled(before.value, Last(t)) then Some(Step(capacity, m, before.value, Last(t))) else None
  }

  /** The cache keeps its shape under every interleaving, also when two calls insert one hash. */
  lemma {:induction false} AlwaysWellFormed(capacity: nat, m: Model, t: seq<Event>)
    requires capacity >= 1 && AfterEvents(capacity, m, t).Some?
    ensures WellFormed(capacity, AfterEvents(capacity, m, t).value.cache)
  {
    if t != [] {
      AlwaysWellFormed(capacity, m, Front(t));
      var s := AfterEvents(capacity, m, Front(t)).value;
      if Last(t).Finish? {
        var image := s.calls[Last(t).call].image;
        if m.scorer(image).Finite? { InsertWellFormed(capacity, s.cache, m.hash(image), m.scorer(image).value); }
      }
    }
  }

  /** Every answered call got the verdict computed with no cache. */
  ghost predicate Transparent(m: Model, s: Shared) {
    forall c :: c in s.calls && s.calls[c].Answered? ==> s.calls[c].verdict == AnalyzeUncached(m, s.calls[c].image)
  }

  /** Nothing is left to score when there is no model. */
  ghost predicate ScoresOnlyWithModel(m: Model, s: Shared) {
    forall c :: c in s.calls && s.calls[c].Scoring? ==> !m.stub
  }

  lemma InsertFaithful(capacity: nat, m: Model, s: State, image: Bytes)
    requires HashSeparatesScores(m) && Faithful(m, s) && m.scorer(image).Finite?
    ensures Faithful(m, Insert(capacity, s, m.hash(image), m.scorer(image).value))
  {
    var s' := Insert(capacity, s, m.hash(image), m.scorer(image).value);
    forall b: Bytes | m.hash(b) in s'.scores
      ensures m.scorer(b) == Finite(s'.scores[m.hash(b)])
    {
      EvictKeepsScores(capacity, s, m.hash(b));
    }
  }

  lemma {:induction false} AlwaysTransparent(capacity: nat, m: Model, t: seq<Event>)
    requires (m.stub || HashSeparatesScores(m)) && AfterEvents(capacity, m, t).Some?
    ensures var s := AfterEvents(capacity, m, t).value;
            && Transparent(m, s) && ScoresOnlyWithModel(m, s)
            && (if m.stub then s.cache == Empty else Faithful(m, s.cache))
  {
    if t != [] {
      AlwaysTransparent(capacity, m, Front(t));
      var s := AfterEvents(capacity, m, Front(t)).value;
      if Last(t).Finish? {
        var image := s.calls[Last(t).call].image;
        if m.scorer(image).Finite? { InsertFaithful(capacity, m, s.cache, image); }
      }
    }
  }

  /** Two images under one hash with different scores: the second gets the verdict of the first. */
  lemma CollisionShows(capacity: nat, m: Model, a: Bytes, b: Bytes)
    requires capacity >= 1 && !m.stub && m.hash(a) == m.hash(b) && m.scorer(a).Finite? && m.scorer(a) != m.scorer(b)
    ensures var t := [Begin(0, a), Finish(0), Begin(1, b)];
            AfterEvents(capacity, m, t).Some? && !Transparent(m, AfterEvents(capacity, m, t).value)
  {
    var t1, t2, t3 := [Begin(0, a)], [Begin(0, a), Finish(0)], [Begin(0, a), Finish(0), Begin(1, b)];
    assert Front(t1) == [] && Front(t2) == t1 && Front(t3) == t2;
    var s1 := Step(capacity, m, Start, Begin(0, a));
    assert AfterEvents(capacity, m, []) == Some(Start) && AfterEvents(capacity, m, t1) == Some(s1);
    var s2 := Step(capacity, m, s1, Finish(0));
    assert AfterEvents(capacity, m, t2) == Some(s2);
    assert Evict(capacity, Empty) == Empty && s2.cache.scores[m.hash(b)] == m.scorer(a).value;
    var s3 := Step(capacity, m, s2, Begin(1, b));
    assert AfterEvents(capacity, m, t3) == Some(s3);
    assert s3.calls[1] == Answered(b, VerdictFor(m.scorer(a)));
  }

  /** Under every interleaving each image gets the verdict computed with no cache, exactly when
      images that share a hash share a score (or nothing is scored at all). */
  lemma InterleavedTransparency(capacity: nat, m: Model)
    requires capacity >= 1
    ensures (m.stub || HashSeparatesScores(m))
       <==> forall t :: AfterEvents(capacity, m, t).Some? ==> Transparent(m, AfterEvents(capacity, m, t).value)
  {
    if m.stub || HashSeparatesScores(m) {
      forall t | AfterEvents(capacity, m, t).Some? ensures Transparent(m, AfterEvents(capacity, m, t).value) {
        AlwaysTransparent(capacity, m, t);
      }
    } else {
      var a: Bytes, b: Bytes :| m.hash(a) == m.hash(b) && m.scorer(a) != m.scorer(b);
      if m.scorer(a).Finite? { CollisionShows(capacity, m, a, b); } else { CollisionShows(capacity, m, b, a); }
    }
  }
}

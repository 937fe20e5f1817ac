/** The lease table and the in-flight counter of one node together: `dequeue` counts an item
    before it leases it, under the queue's lock; `complete` removes the lease before it starts
    its compare-exchange loop, outside the lock. Any number of those loops interleave with
    everything else. */
module InflightCoverage {
  import opened Base
  import WorkQueue
  import WorkQueueLaws
  import InflightCounter

  datatype Joint =
    | OnQueue(step: WorkQueue.Event)
    | OnCounter(access: InflightCounter.Event)

  type Run = seq<Joint>

  function QueueRun(t: Run): WorkQueue.Trace {
    if t == [] then []
    else if Last(t).OnQueue? then QueueRun(Front(t)) + [Last(t).step]
    else QueueRun(Front(t))
  }

  function CounterRun(t: Run): seq<InflightCounter.Event> {
    if t == [] then []
    else if Last(t).OnCounter? then CounterRun(Front(t)) + [Last(t).access]
    else CounterRun(Front(t))
  }

  /** Items leased so far, and completions so far. */
  function Leased(q: WorkQueue.Trace): nat {
    if q == [] then 0 else Leased(Front(q)) + if Last(q).Deliver? then 1 else 0
  }

  function Acknowledged(q: WorkQueue.Trace): nat {
    if q == [] then 0 else Acknowledged(Front(q)) + if Last(q).Ack? then 1 else 0
  }

  /** `dequeue` has counted an item and not yet leased it. */
  predicate HalfWay(t: Run) {
    InflightCounter.Deliveries(CounterRun(t)) > Leased(QueueRun(t))
  }

  /** How many calls of `complete_inflight` have started. */
  function Started(c: seq<InflightCounter.Event>): nat {
    if c == [] then 0 else Started(Front(c)) + if Last(c).Load? then 1 else 0
  }

  /** The next queue step: an item is leased after it was counted, with the lock held from there
      on, and a completion belongs to a delivery. The counter is no part of the queue here. */
  predicate QueueMay(t: Run, e: WorkQueue.Event) {
    && !e.Finish?
    && (e.Deliver? ==> HalfWay(t))
    && (HalfWay(t) ==> e.Deliver? || e.Close?)
    && (e.Ack? ==> e.id in WorkQueue.Debt(QueueRun(t)))
  }

  /** The next access to the counter: one increment for each item about to be leased, and one
      call for each completion. */
  predicate CounterMay(t: Run, e: InflightCounter.Event) {
    && (e.Deliver? ==> !HalfWay(t))
    && (e.Load? ==> Started(CounterRun(t)) < Acknowledged(QueueRun(t)))
  }

  predicate Legal(cfg: WorkQueue.Config, t: Run)
  {
    t == []
    || (&& Legal(cfg, Front(t))
        && WorkQueue.Possible(cfg, QueueRun(t))
        && InflightCounter.After(CounterRun(t)).Some?
        && match Last(t)
           case OnQueue(e) => QueueMay(Front(t), e)
           case OnCounter(e) => CounterMay(Front(t), e))
  }

  // ----- The lease table against the completions -----

  /** Each leased id is still owed a completion, and what is owed is what was leased less what
      was acknowledged. */
  ghost predicate LeasesOwed(q: WorkQueue.Trace) {
    && (forall id :: id in WorkQueue.After(q).leased ==> id in WorkQueue.Debt(q))
    && |WorkQueue.Debt(q)| == Leased(q) - Acknowledged(q)
  }

  lemma {:induction false} AlwaysOwed(cfg: WorkQueue.Config, q: WorkQueue.Trace)
    requires WorkQueue.Possible(cfg, q) && WorkQueue.Paired(q)
    ensures LeasesOwed(q)
  {
    if q != [] {
      AlwaysOwed(cfg, Front(q));
      if Last(q).Ack? {
        var owed, id := WorkQueue.Debt(Front(q)), Last(q).id;
        assert owed == (owed - multiset{id}) + multiset{id};
      }
    }
  }

  lemma {:induction false} CallsStarted(c: seq<InflightCounter.Event>)
    requires InflightCounter.After(c).Some?
    ensures |InflightCounter.After(c).value.calls.Keys| == Started(c)
    ensures |InflightCounter.ExchangedCalls(InflightCounter.After(c).value)| <= Started(c)
  {
    var s := InflightCounter.After(c).value;
    if c != [] {
      CallsStarted(Front(c));
      var keys := InflightCounter.After(Front(c)).value.calls.Keys;
      assert s.calls.Keys == match Last(c) case Load(k, _) => keys + {k} case _ => keys;
    }
    WorkQueueLaws.SubsetOfBag(InflightCounter.ExchangedCalls(s), multiset(s.calls.Keys));
  }

  /** What every run keeps between the two. */
  ghost predicate InStep(t: Run) {
    var q, c := QueueRun(t), CounterRun(t);
    && WorkQueue.Paired(q)
    && InflightCounter.After(c).Some?
    && Leased(q) <= InflightCounter.Deliveries(c) <= Leased(q) + 1
    && Started(c) <= Acknowledged(q)
  }

  lemma {:induction false} AlwaysInStep(cfg: WorkQueue.Config, t: Run)
    requires Legal(cfg, t)
    ensures InStep(t) && WorkQueue.Possible(cfg, QueueRun(t))
  {
    if t != [] {
      AlwaysInStep(cfg, Front(t));
      if Last(t).OnQueue? {
        assert Front(QueueRun(t)) == QueueRun(Front(t));
      } else {
        assert Front(CounterRun(t)) == CounterRun(Front(t));
      }
    }
  }

  // ----- The count covers the leases -----

  function Count(t: Run): u32
    requires InStep(t)
  {
    InflightCounter.Value(CounterRun(t))
  }

  /** Increments of the run that overflowed the counter. */
  function Overflows(t: Run): nat
    requires InStep(t)
  {
    InflightCounter.Overflows(CounterRun(t))
  }

  ghost predicate Covered(t: Run) {
    InStep(t) && |WorkQueue.After(QueueRun(t)).leased.Keys| <= Count(t)
  }

  ghost predicate AlwaysCovered(t: Run)
  {
    Covered(t) && (t == [] || AlwaysCovered(Front(t)))
  }

  lemma CoveredWithoutOverflow(cfg: WorkQueue.Config, t: Run)
    requires Legal(cfg, t)
    ensures InStep(t) && (Overflows(t) == 0 ==> Covered(t))
  {
    AlwaysInStep(cfg, t);
    var q, c := QueueRun(t), CounterRun(t);
    AlwaysOwed(cfg, q);
    WorkQueueLaws.SubsetOfBag(WorkQueue.After(q).leased.Keys, WorkQueue.Debt(q));
    InflightCounter.CountBalance(c);
    CallsStarted(c);
  }

  /** The increment just made overflowed: the counter stands at zero and the item is not leased yet. */
  ghost predicate JustOverflowed(t: Run) {
    InStep(t) && HalfWay(t) && Overflows(t) == 1 && Count(t) == 0
  }

  lemma CounterStep(cfg: WorkQueue.Config, t: Run)
    requires Legal(cfg, t) && t != [] && Last(t).OnCounter?
    requires InStep(Front(t)) && (Overflows(Front(t)) == 0 || JustOverflowed(Front(t)))
    ensures InStep(t) && (Overflows(t) == 0 || JustOverflowed(t))
  {
    AlwaysInStep(cfg, t);
    var past, c := Front(t), CounterRun(t);
    assert Front(c) == CounterRun(past) && QueueRun(t) == QueueRun(past);
    InflightCounter.ValueStep(c);
  }

  lemma QueueStep(cfg: WorkQueue.Config, t: Run)
    requires Legal(cfg, t) && t != [] && Last(t).OnQueue?
    requires InStep(Front(t)) && (Overflows(Front(t)) == 0 || JustOverflowed(Front(t)))
    ensures InStep(t) && (Covered(t) ==> Overflows(t) == 0 || JustOverflowed(t))
  {
    AlwaysInStep(cfg, t);
    var past, q := Front(t), QueueRun(t);
    assert Front(q) == QueueRun(past) && CounterRun(t) == CounterRun(past);
    if Last(q).Deliver? {
      assert Last(q).item.workId in WorkQueue.After(q).leased.Keys;
      assert |WorkQueue.After(q).leased.Keys| > 0;
    }
  }

  lemma {:induction false} CoveredRunsFit(cfg: WorkQueue.Config, t: Run)
    requires Legal(cfg, t) && AlwaysCovered(t)
    ensures InStep(t) && (Overflows(t) == 0 || JustOverflowed(t))
  {
    if t != [] {
      CoveredRunsFit(cfg, Front(t));
      if Last(t).OnQueue? { QueueStep(cfg, t); } else { CounterStep(cfg, t); }
    }
  }

  lemma OverflowsOnlyGrow(cfg: WorkQueue.Config, t: Run)
    requires Legal(cfg, t) && t != []
    ensures InStep(t) && InStep(Front(t)) && Overflows(Front(t)) <= Overflows(t)
  {
    AlwaysInStep(cfg, t);
    AlwaysInStep(cfg, Front(t));
    if Last(t).OnCounter? { assert Front(CounterRun(t)) == CounterRun(Front(t)); }
  }

  lemma {:induction false} FittingRunsCovered(cfg: WorkQueue.Config, t: Run)
    requires Legal(cfg, t) && InStep(t) && Overflows(t) == 0
    ensures AlwaysCovered(t)
  {
    CoveredWithoutOverflow(cfg, t);
    if t != [] {
      OverflowsOnlyGrow(cfg, t);
      FittingRunsCovered(cfg, Front(t));
    }
  }

  /** Whenever no item stands between being counted and being leased: the leases never outnumbered
      the in-flight count exactly if no increment overflowed it, under every interleaving of the
      compare-exchange loops. */
  lemma CountCoversLeases(cfg: WorkQueue.Config, t: Run)
    requires Legal(cfg, t) && !HalfWay(t)
    ensures InStep(t) && (AlwaysCovered(t) <==> Overflows(t) == 0)
  {
    AlwaysInStep(cfg, t);
    if AlwaysCovered(t) { CoveredRunsFit(cfg, t); }
    if Overflows(t) == 0 { FittingRunsCovered(cfg, t); }
  }
}

/** What every run of the leased work queue keeps. */
module WorkQueueLaws {
  import opened Base
  import opened WorkQueue
  import Decimal

  // ----- Conservation: at-least-once delivery -----

  lemma {:induction false} LeasesKeyedById(cfg: Config, t: Trace, id: string)
    requires Possible(cfg, t)
    ensures id in After(t).leased ==> After(t).leased[id].item.workId == id
  {
    if t != [] { LeasesKeyedById(cfg, Front(t), id); }
  }

  lemma {:induction false} CopiesOfConcat(x: Item, a: seq<Item>, b: seq<Item>)
    ensures Copies(x, a + b) == Copies(x, a) + Copies(x, b)
  {
    if a == [] {
      assert a + b == b;
    } else {
      CopiesOfConcat(x, a[1..], b);
      assert (a + b)[1..] == a[1..] + b;
    }
  }

  lemma {:induction false} QueuedOfConcat(id: string, a: seq<Item>, b: seq<Item>)
    ensures Queued(id, a + b) == Queued(id, a) + Queued(id, b)
  {
    if a == [] {
      assert a + b == b;
    } else {
      QueuedOfConcat(id, a[1..], b);
      assert (a + b)[1..] == a[1..] + b;
    }
  }

  lemma RequeueKeepsCopies(x: Item, s: State, id: string, now: nat)
    requires id in s.leased && s.leased[id].item.workId == id
    ensures var s' := Step(s, Expire(id, now));
            Copies(x, s'.items) + LeasedCopies(x, s'.leased) == Copies(x, s.items) + LeasedCopies(x, s.leased)
  {
    var r := Retry(s.leased[id].item);
    assert ([r] + s.items)[1..] == s.items;
    assert Core(r) == Core(s.leased[id].item);
  }

  lemma AcceptAddsCopy(x: Item, past: Trace, s: State, item: Item)
    ensures Copies(x, Accepted(past) + [item]) == Copies(x, Accepted(past)) + Copies(x, [item])
    ensures Copies(x, s.items + [item]) == Copies(x, s.items) + Copies(x, [item])
  {
    CopiesOfConcat(x, Accepted(past), [item]);
    CopiesOfConcat(x, s.items, [item]);
  }

  /** Every accepted item is queued, leased, acknowledged while leased, or was overwritten
      in the lease table by another item carrying the same id; nothing is made up. */
  lemma {:induction false} Conservation(cfg: Config, t: Trace, x: Item)
    requires Possible(cfg, t)
    ensures Copies(x, Accepted(t))
         == Copies(x, After(t).items) + LeasedCopies(x, After(t).leased) + AckedWhileLeased(x, t) + Overwritten(x, t)
  {
    if t != [] {
      var past, s, e := Front(t), After(Front(t)), Last(t);
      Conservation(cfg, past, x);
      if e.Accept? {
        AcceptAddsCopy(x, past, s, e.item);
      } else if e.Expire? {
        LeasesKeyedById(cfg, past, e.id);
        RequeueKeepsCopies(x, s, e.id, e.now);
      }
    }
  }

  /** How one step changes the number of times an id is outstanding. */
  lemma OutstandingStep(cfg: Config, past: Trace, e: Event, id: string)
    requires Possible(cfg, past) && Enabled(cfg, After(past), Clock(past), e)
    ensures var s := After(past);
            && (e.Accept? ==> Outstanding(id, Step(s, e)) == Outstanding(id, s) + if e.item.workId == id then 1 else 0)
            && (!e.Accept? ==> Outstanding(id, Step(s, e)) <= Outstanding(id, s))
            && (e.Deliver? && e.item.workId == id && id in s.leased ==> Outstanding(id, s) >= 2)
  {
    var s := After(past);
    match e
    case Accept(item, _) => QueuedOfConcat(id, s.items, [item]);
    case Expire(due, _) =>
      LeasesKeyedById(cfg, past, due);
      QueuedOfConcat(id, [Retry(s.leased[due].item)], s.items);
    case Deliver(_, _) =>
    case Ack(_) =>
    case Finish =>
    case Close =>
  }

  /** Outstanding ids are distinct after every step. */
  ghost predicate AlwaysDistinct(t: Trace)
  {
    DistinctOutstanding(After(t)) && (t == [] || AlwaysDistinct(Front(t)))
  }

  /** Outstanding ids stay distinct exactly while no outstanding id is accepted again. */
  lemma {:induction false} DistinctIffNotOutstanding(cfg: Config, t: Trace)
    requires Possible(cfg, t)
    ensures AlwaysDistinct(t) <==> AcceptsNotOutstanding(t)
  {
    if t != [] {
      var past, e := Front(t), Last(t);
      DistinctIffNotOutstanding(cfg, past);
      forall id
        ensures AlwaysDistinct(past) && AcceptsNotOutstanding(t) ==> Outstanding(id, After(t)) <= 1
      {
        OutstandingStep(cfg, past, e, id);
      }
      if e.Accept? { OutstandingStep(cfg, past, e, e.item.workId); }
    }
  }

  /** Under that condition nothing is ever overwritten, so nothing accepted is lost:
      each accepted item is in exactly one of queue, leases and acknowledged work. */
  lemma {:induction false} NothingLost(cfg: Config, t: Trace, x: Item)
    requires Possible(cfg, t) && AcceptsNotOutstanding(t)
    ensures Overwritten(x, t) == 0
    ensures Copies(x, Accepted(t))
         == Copies(x, After(t).items) + LeasedCopies(x, After(t).leased) + AckedWhileLeased(x, t)
  {
    Conservation(cfg, t, x);
    if t != [] {
      NothingLost(cfg, Front(t), x);
      DistinctIffNotOutstanding(cfg, Front(t));
      OutstandingStep(cfg, Front(t), Last(t), x.workId);
    }
  }

  // ----- The condition is needed, and what it costs to break it -----

  /** No delivery found its id leased already. */
  predicate ReplacesNoLease(t: Trace)
  {
    t == []
    || (ReplacesNoLease(Front(t)) && (Last(t).Deliver? ==> Last(t).item.workId !in After(Front(t)).leased))
  }

  lemma {:induction false} NothingReplaced(t: Trace, x: Item)
    requires ReplacesNoLease(t)
    ensures Overwritten(x, t) == 0
  {
    if t != [] { NothingReplaced(Front(t), x); }
  }

  /** The item of the first lease that was replaced. */
  lemma {:induction false} SomethingReplaced(cfg: Config, t: Trace) returns (x: Item)
    requires Possible(cfg, t) && !ReplacesNoLease(t)
    ensures Overwritten(x, t) > 0
  {
    if !ReplacesNoLease(Front(t)) {
      x := SomethingReplaced(cfg, Front(t));
    } else {
      var id := Last(t).item.workId;
      LeasesKeyedById(cfg, Front(t), id);
      x := After(Front(t)).leased[id].item;
    }
  }

  /** An accepted item is in the queue, in the leases or in the acknowledged work, each copy once. */
  ghost predicate Kept(x: Item, t: Trace) {
    Copies(x, Accepted(t))
    == Copies(x, After(t).items) + LeasedCopies(x, After(t).leased) + AckedWhileLeased(x, t)
  }

  /** A run loses nothing exactly if none of its deliveries found its id leased already. */
  lemma NothingLostIff(cfg: Config, t: Trace)
    requires Possible(cfg, t)
    ensures (forall x :: Kept(x, t)) <==> ReplacesNoLease(t)
  {
    if ReplacesNoLease(t) {
      forall x ensures Kept(x, t) {
        Conservation(cfg, t, x);
        NothingReplaced(t, x);
      }
    } else {
      var x := SomethingReplaced(cfg, t);
      Conservation(cfg, t, x);
      assert !Kept(x, t);
    }
  }

  /** A delivery loses an item exactly when the id at the front of the queue is leased already. */
  lemma DeliveryLosesIffLeased(cfg: Config, past: Trace, now: nat)
    requires Possible(cfg, past) && Clock(past) <= now && After(past).items != []
    ensures var item := After(past).items[0];
            var t := past + [Deliver(item, now)];
            && Possible(cfg, t)
            && ((exists x :: Overwritten(x, t) > Overwritten(x, past)) <==> item.workId in After(past).leased)
  {
    var item := After(past).items[0];
    var t := past + [Deliver(item, now)];
    assert Front(t) == past && Last(t) == Deliver(item, now);
    if item.workId in After(past).leased {
      LeasesKeyedById(cfg, past, item.workId);
      var x := After(past).leased[item.workId].item;
      assert Overwritten(x, t) == Overwritten(x, past) + 1;
    }
  }

  /** Accepting an id that is out on a lease loses the first item without any acknowledgement. */
  lemma ReusedIdLosesAnItem()
    ensures var cfg := Config("node-local", 512);
            var a, b := Item("w", "first", 0, 0, 0), Item("w", "second", 0, 0, 0);
            var t := [Accept(a, false), Deliver(a, 1), Accept(b, false), Deliver(b, 2)];
            && Possible(cfg, t) && !AcceptsNotOutstanding(t)
            && Copies(a, Accepted(t)) == 1 && AckedWhileLeased(a, t) == 0
            && Copies(a, After(t).items) == 0 && LeasedCopies(a, After(t).leased) == 0
  {
    var cfg := Config("node-local", 512);
    var a, b := Item("w", "first", 0, 0, 0), Item("w", "second", 0, 0, 0);
    var t1, t2 := [Accept(a, false)], [Accept(a, false), Deliver(a, 1)];
    var t3 := t2 + [Accept(b, false)];
    var t4 := t3 + [Deliver(b, 2)];
    Extend([], Accept(a, false));
    Extend(t1, Deliver(a, 1));
    Extend(t2, Accept(b, false));
    Extend(t3, Deliver(b, 2));
    assert Possible(cfg, []) && [] + t1 == t1;
    assert Possible(cfg, t1) && Accepted(t1) == [a] && AckedWhileLeased(a, t1) == 0;
    assert t1 + [Deliver(a, 1)] == t2;
    assert Possible(cfg, t2) && Accepted(t2) == [a] && AckedWhileLeased(a, t2) == 0;
    assert Possible(cfg, t3) && Accepted(t3) == [a, b] && AckedWhileLeased(a, t3) == 0;
    assert Copies(a, [b]) == 0 && [a, b][1..] == [b];
    assert t4 == [Accept(a, false), Deliver(a, 1), Accept(b, false), Deliver(b, 2)];
  }

  // ----- First deliveries are first-in first-out -----

  /** What is known about a queue at one moment. */
  datatype View = View(
    accepted: seq<Item>,    // in order of acceptance
    first: seq<Item>,       // first deliveries, in order
    queue: seq<Item>,
    acceptedIds: set<string>,
    deliveredIds: set<string>,
    leasedIds: set<string>)

  ghost function ViewOf(t: Trace): View {
    View(Accepted(t), FirstDelivered(t), After(t).items, AcceptedIds(t), DeliveredIds(t), After(t).leased.Keys)
  }

  /** The queue is redeliveries first, then exactly the accepted items never handed out. */
  ghost predicate Ordered(v: View) {
    var n, k := |v.first|, |v.queue| + |v.first| - |v.accepted|;
    && n <= |v.accepted| <= |v.queue| + n
    && v.first == v.accepted[..n]
    && v.queue[k..] == v.accepted[n..]
    && (forall i :: 0 <= i < k ==> v.queue[i].workId in v.deliveredIds)
    && (forall i :: 0 <= i < |v.accepted| ==> (v.accepted[i].workId in v.deliveredIds <==> i < n))
    && (forall i, j :: 0 <= i < j < |v.accepted| ==> v.accepted[i].workId != v.accepted[j].workId)
    && (forall i :: 0 <= i < |v.accepted| ==> v.accepted[i].workId in v.acceptedIds)
    && v.deliveredIds <= v.acceptedIds
    && v.leasedIds <= v.deliveredIds
  }

  lemma OrderedAccept(v: View, x: Item)
    requires Ordered(v) && x.workId !in v.acceptedIds
    ensures Ordered(v.(accepted := v.accepted + [x], queue := v.queue + [x], acceptedIds := v.acceptedIds + {x.workId}))
  {
    var n, k := |v.first|, |v.queue| + |v.first| - |v.accepted|;
    assert (v.queue + [x])[k..] == v.queue[k..] + [x];
    assert (v.accepted + [x])[n..] == v.accepted[n..] + [x];
    assert (v.accepted + [x])[..n] == v.accepted[..n];
  }

  lemma OrderedRequeue(v: View, x: Item)
    requires Ordered(v) && x.workId in v.leasedIds
    ensures Ordered(v.(queue := [x] + v.queue, leasedIds := v.leasedIds - {x.workId}))
  {
    var k := |v.queue| + |v.first| - |v.accepted|;
    assert ([x] + v.queue)[k + 1..] == v.queue[k..];
  }

  /** With no redelivery waiting, the front of the queue is the next accepted item. */
  lemma FrontItem(v: View)
    requires Ordered(v) && v.queue != [] && |v.queue| + |v.first| == |v.accepted|
    ensures v.queue == v.accepted[|v.first|..] && v.queue[0].workId !in v.deliveredIds
  {
    assert v.queue == v.queue[0..];
  }

  lemma OrderedRedelivery(v: View)
    requires Ordered(v) && v.queue != [] && v.queue[0].workId in v.deliveredIds
    ensures Ordered(v.(queue := v.queue[1..], leasedIds := v.leasedIds + {v.queue[0].workId}))
  {
    var k := |v.queue| + |v.first| - |v.accepted|;
    if k == 0 { FrontItem(v); }
    assert v.queue[1..][k - 1..] == v.queue[k..];
  }

  lemma ShiftOne<T>(acc: seq<T>, n: nat, q: seq<T>)
    requires n <= |acc| && q == acc[n..] && q != []
    ensures n < |acc| && q[0] == acc[n] && q[1..] == acc[n + 1..] && acc[..n] + [q[0]] == acc[..n + 1]
  {
  }

  /** An id never seen before can only be that of the next accepted item. */
  lemma OrderedFirstDelivery(v: View)
    requires Ordered(v) && v.queue != [] && v.queue[0].workId !in v.deliveredIds
    ensures var x := v.queue[0];
            Ordered(v.(first := v.first + [x], queue := v.queue[1..], deliveredIds := v.deliveredIds + {x.workId},
                       leasedIds := v.leasedIds + {x.workId}))
  {
    var n, x := |v.first|, v.queue[0];
    FrontItem(v);
    ShiftOne(v.accepted, n, v.queue);
    var v' := v.(first := v.first + [x], queue := v.queue[1..], deliveredIds := v.deliveredIds + {x.workId},
                 leasedIds := v.leasedIds + {x.workId});
    assert v'.queue[0..] == v'.queue;
    assert |v'.queue| + |v'.first| - |v'.accepted| == 0;
    forall i | 0 <= i < |v.accepted|
      ensures v.accepted[i].workId in v'.deliveredIds <==> i < n + 1
    {
      assert i > n ==> v.accepted[n].workId != v.accepted[i].workId;
    }
  }

  // What each step does to the view.

  lemma AcceptView(past: Trace, x: Item, generated: bool)
    ensures var v := ViewOf(past);
            ViewOf(past + [Accept(x, generated)])
            == v.(accepted := v.accepted + [x], queue := v.queue + [x], acceptedIds := v.acceptedIds + {x.workId})
  {
    Extend(past, Accept(x, generated));
  }

  lemma ExpireView(past: Trace, id: string, now: nat)
    requires id in After(past).leased
    ensures var v := ViewOf(past);
            ViewOf(past + [Expire(id, now)])
            == v.(queue := [Retry(After(past).leased[id].item)] + v.queue, leasedIds := v.leasedIds - {id})
  {
    Extend(past, Expire(id, now));
  }

  lemma RedeliveryView(past: Trace, x: Item, now: nat)
    requires After(past).items != [] && x.workId in DeliveredIds(past)
    ensures var v := ViewOf(past);
            ViewOf(past + [Deliver(x, now)]) == v.(queue := v.queue[1..], leasedIds := v.leasedIds + {x.workId})
  {
    Extend(past, Deliver(x, now));
    assert DeliveredIds(past) + {x.workId} == DeliveredIds(past);
  }

  lemma FirstDeliveryView(past: Trace, x: Item, now: nat)
    requires After(past).items != [] && x.workId !in DeliveredIds(past)
    ensures var v := ViewOf(past);
            ViewOf(past + [Deliver(x, now)])
            == v.(first := v.first + [x], queue := v.queue[1..], deliveredIds := v.deliveredIds + {x.workId},
                  leasedIds := v.leasedIds + {x.workId})
  {
    Extend(past, Deliver(x, now));
  }

  lemma OtherView(past: Trace, e: Event)
    requires e.Ack? || e.Finish? || e.Close?
    ensures var v := ViewOf(past);
            ViewOf(past + [e]) == v.(leasedIds := if e.Ack? then v.leasedIds - {e.id} else v.leasedIds)
  {
    Extend(past, e);
  }

  lemma OrderedOther(v: View, ids: set<string>)
    requires Ordered(v) && ids <= v.leasedIds
    ensures Ordered(v.(leasedIds := ids))
  {
  }

  lemma {:induction false} AlwaysOrdered(cfg: Config, t: Trace)
    requires Possible(cfg, t) && Fresh(t)
    ensures Ordered(ViewOf(t))
  {
    if t != [] {
      var past, e := Front(t), Last(t);
      AlwaysOrdered(cfg, past);
      assert t == past + [e];
      var v := ViewOf(past);
      if e.Accept? {
        AcceptView(past, e.item, e.generated);
        OrderedAccept(v, e.item);
      } else if e.Expire? {
        LeasesKeyedById(cfg, past, e.id);
        ExpireView(past, e.id, e.now);
        OrderedRequeue(v, Retry(After(past).leased[e.id].item));
      } else if e.Deliver? && e.item.workId in DeliveredIds(past) {
        RedeliveryView(past, e.item, e.now);
        OrderedRedelivery(v);
      } else if e.Deliver? {
        FirstDeliveryView(past, e.item, e.now);
        OrderedFirstDelivery(v);
      } else {
        OtherView(past, e);
        OrderedOther(v, ViewOf(t).leasedIds);
      }
    }
  }

  /** The items handed out for the first time are a prefix of the accepted items, whatever
      expiries, redeliveries and acknowledgements happen in between. */
  lemma FirstDeliveriesAreFifo(cfg: Config, t: Trace)
    requires Possible(cfg, t) && Fresh(t)
    ensures FirstDelivered(t) <= Accepted(t)
  {
    AlwaysOrdered(cfg, t);
  }

  // ----- Redelivery -----

  lemma {:induction false} OutstandingWasAccepted(cfg: Config, t: Trace, id: string)
    requires Possible(cfg, t) && Outstanding(id, After(t)) > 0
    ensures id in AcceptedIds(t)
  {
    if t != [] {
      OutstandingStep(cfg, Front(t), Last(t), id);
      if Outstanding(id, After(Front(t))) > 0 { OutstandingWasAccepted(cfg, Front(t), id); }
    }
  }

  /** Ids that are never accepted twice are a special case of ids not accepted while outstanding. */
  lemma {:induction false} FreshIsNotOutstanding(cfg: Config, t: Trace)
    requires Possible(cfg, t) && Fresh(t)
    ensures AcceptsNotOutstanding(t)
  {
    if t != [] {
      FreshIsNotOutstanding(cfg, Front(t));
      if Last(t).Accept? && Outstanding(Last(t).item.workId, After(Front(t))) > 0 {
        OutstandingWasAccepted(cfg, Front(t), Last(t).item.workId);
      }
    }
  }

  lemma {:induction false} QueuedItemCounts(items: seq<Item>, i: nat)
    requires i < |items|
    ensures Queued(items[i].workId, items) > 0
  {
    if i > 0 { QueuedItemCounts(items[1..], i - 1); }
  }

  lemma OutstandingOnce(cfg: Config, t: Trace, id: string)
    requires Possible(cfg, t) && AcceptsNotOutstanding(t)
    ensures Queued(id, After(t).items) + (if id in After(t).leased then 1 else 0) <= 1
  {
    DistinctIffNotOutstanding(cfg, t);
    assert Outstanding(id, After(t)) <= 1;
  }

  /** The redelivery counter an id should carry: what it was accepted with plus its expired leases. */
  function DueAttempts(t: Trace, id: string): u32 {
    AsU32(InitialAttempts(t, id) + Expiries(t, id))
  }

  ghost predicate CountsExpiries(t: Trace, id: string) {
    && (forall i :: 0 <= i < |After(t).items| && After(t).items[i].workId == id ==>
          After(t).items[i].attempts == DueAttempts(t, id))
    && (id in After(t).leased ==> After(t).leased[id].item.attempts == DueAttempts(t, id))
  }

  lemma WrappedIncrement(x: nat)
    ensures AsU32(AsU32(x) + 1) == AsU32(x + 1)
  {
  }

  lemma ExpireCounts(cfg: Config, past: Trace, e: Event, id: string)
    requires Possible(cfg, past + [e]) && AcceptsNotOutstanding(past + [e]) && e.Expire?
    requires CountsExpiries(past, id)
    ensures CountsExpiries(past + [e], id)
  {
    Extend(past, e);
    LeasesKeyedById(cfg, past, e.id);
    OutstandingOnce(cfg, past, e.id);
    forall i | 0 <= i < |After(past).items| && After(past).items[i].workId == e.id
      ensures false
    {
      QueuedItemCounts(After(past).items, i);
    }
    if id == e.id {
      WrappedIncrement(InitialAttempts(past, id) + Expiries(past, id));
    }
  }

  lemma AcceptCounts(cfg: Config, past: Trace, e: Event, id: string)
    requires Possible(cfg, past + [e]) && AcceptsNotOutstanding(past + [e]) && e.Accept?
    requires CountsExpiries(past, id)
    ensures CountsExpiries(past + [e], id)
  {
    Extend(past, e);
    forall i | 0 <= i < |After(past).items| && After(past).items[i].workId == e.item.workId == id
      ensures false
    {
      QueuedItemCounts(After(past).items, i);
    }
  }

  /** Every queued or leased item carries exactly the `attempts` it was last accepted with plus the
      number of its leases that expired since (in `u32` arithmetic). */
  lemma {:induction false} AttemptsCountExpiries(cfg: Config, t: Trace, id: string)
    requires Possible(cfg, t) && AcceptsNotOutstanding(t)
    ensures CountsExpiries(t, id)
  {
    if t != [] {
      var past, e := Front(t), Last(t);
      assert t == past + [e];
      AttemptsCountExpiries(cfg, past, id);
      match e
      case Accept(_, _) => AcceptCounts(cfg, past, e, id);
      case Expire(_, _) => ExpireCounts(cfg, past, e, id);
      case Deliver(_, _) =>
      case Ack(_) =>
      case Finish =>
      case Close =>
    }
  }

  /** The same of every delivery in the history. */
  lemma DeliveredAttempts(cfg: Config, t: Trace, k: nat)
    requires Possible(cfg, t) && AcceptsNotOutstanding(t) && k < |t| && t[k].Deliver?
    ensures t[k].item.attempts == DueAttempts(t[..k], t[k].item.workId)
  {
    PrefixPossible(cfg, t, k + 1);
    assert Front(t[..k + 1]) == t[..k];
    AttemptsCountExpiries(cfg, t[..k], t[k].item.workId);
  }

  lemma {:induction false} PrefixPossible(cfg: Config, t: Trace, k: nat)
    requires Possible(cfg, t) && k <= |t|
    ensures Possible(cfg, t[..k])
    ensures AcceptsNotOutstanding(t) ==> AcceptsNotOutstanding(t[..k])
  {
    if k < |t| {
      PrefixPossible(cfg, Front(t), k);
      assert Front(t)[..k] == t[..k];
    } else {
      assert t[..k] == t;
    }
  }

  /** A leased id was last delivered one lease time before its deadline; a queued id that was
      delivered before has waited at least that long. */
  ghost predicate Spaced(t: Trace, id: string) {
    && (id in After(t).leased ==> LastDelivery(t, id) == Some(After(t).leased[id].deadline - LEASE_TTL))
    && (Queued(id, After(t).items) > 0 && LastDelivery(t, id).Some? ==>
          LastDelivery(t, id).value + LEASE_TTL <= Clock(t))
  }

  lemma {:induction false} AlwaysSpaced(cfg: Config, t: Trace, id: string)
    requires Possible(cfg, t) && AcceptsNotOutstanding(t)
    ensures Spaced(t, id)
  {
    if t != [] {
      var past, e, s := Front(t), Last(t), After(Front(t));
      AlwaysSpaced(cfg, past, id);
      OutstandingOnce(cfg, past, id);
      if e.Accept? { QueuedOfConcat(id, s.items, [e.item]); }
      if e.Expire? {
        LeasesKeyedById(cfg, past, e.id);
        QueuedOfConcat(id, [Retry(s.leased[e.id].item)], s.items);
      }
      if e.Deliver? && e.item.workId == id { QueuedItemCounts(s.items, 0); }
    }
  }

  predicate NotAcceptedIn(events: Trace, id: string) {
    events == [] || (NotAcceptedIn(Front(events), id) && !AcceptsId(Last(events), id))
  }

  lemma {:induction false} LastDeliveryIsLatest(cfg: Config, t: Trace, k: nat)
    requires Possible(cfg, t) && k < |t| && t[k].Deliver? && NotAcceptedIn(t[k + 1..], t[k].item.workId)
    ensures var last := LastDelivery(t, t[k].item.workId);
            last.Some? && t[k].now <= last.value <= Clock(t)
  {
    if k < |t| - 1 {
      assert Front(t)[k + 1..] == Front(t[k + 1..]);
      LastDeliveryIsLatest(cfg, Front(t), k);
    }
  }

  /** Two deliveries of one id are at least a lease time apart, unless the id was acknowledged
      and accepted anew in between. */
  lemma RedeliverySpacing(cfg: Config, t: Trace, i: nat, j: nat)
    requires Possible(cfg, t) && AcceptsNotOutstanding(t) && i < j < |t|
    requires t[i].Deliver? && t[j].Deliver? && t[i].item.workId == t[j].item.workId
    requires NotAcceptedIn(t[i + 1..j], t[i].item.workId)
    ensures t[i].now + LEASE_TTL <= t[j].now
  {
    PrefixPossible(cfg, t, j + 1);
    var past, id := t[..j], t[j].item.workId;
    assert Front(t[..j + 1]) == past && past[i + 1..] == t[i + 1..j];
    LastDeliveryIsLatest(cfg, past, i);
    AlwaysSpaced(cfg, past, id);
    QueuedItemCounts(After(past).items, 0);
  }

  // ----- The in-flight counter -----

  /** The counter is the deliveries still owed a completion plus the completions still owed
      their decrement, and every leased id is owed a completion. */
  ghost predicate Covers(inflight: u32, owed: multiset<string>, unfinished: int, leased: set<string>) {
    && unfinished >= 0
    && inflight == |owed| + unfinished
    && forall id :: id in leased ==> id in owed
  }

  lemma CoversDelivery(inflight: u32, owed: multiset<string>, unfinished: int, leased: set<string>, id: string)
    requires Covers(inflight, owed, unfinished, leased) && inflight + 1 < U32_RANGE
    ensures Covers(inflight + 1, owed + multiset{id}, unfinished, leased + {id})
  {
  }

  lemma CoversAck(inflight: u32, owed: multiset<string>, unfinished: int, leased: set<string>, id: string)
    requires Covers(inflight, owed, unfinished, leased) && id in owed
    ensures Covers(inflight, owed - multiset{id}, unfinished + 1, leased - {id})
  {
    assert owed == (owed - multiset{id}) + multiset{id};
  }

  ghost predicate CounterCovers(t: Trace) {
    Covers(After(t).inflight, Debt(t), Unfinished(t), After(t).leased.Keys)
  }

  lemma DeliveryEffect(past: Trace, x: Item, now: nat)
    requires After(past).items != [] && After(past).inflight + 1 < U32_RANGE
    ensures var t, s := past + [Deliver(x, now)], After(past);
            After(t).leased.Keys == s.leased.Keys + {x.workId} && After(t).inflight == s.inflight + 1
  {
    Extend(past, Deliver(x, now));
  }

  lemma DeliveryDebt(past: Trace, x: Item, now: nat)
    ensures var t := past + [Deliver(x, now)];
            Debt(t) == Debt(past) + multiset{x.workId} && Unfinished(t) == Unfinished(past)
  {
    Extend(past, Deliver(x, now));
  }

  lemma AckEffect(past: Trace, id: string)
    ensures var t, s := past + [Ack(id)], After(past);
            && After(t).leased.Keys == s.leased.Keys - {id} && After(t).inflight == s.inflight
            && Debt(t) == Debt(past) - multiset{id} && Unfinished(t) == Unfinished(past) + 1
  {
    Extend(past, Ack(id));
  }

  lemma {:induction false} CounterIsDebt(cfg: Config, t: Trace)
    requires Possible(cfg, t) && Paired(t) && CounterFits(t)
    ensures CounterCovers(t)
  {
    if t != [] {
      var past := Front(t);
      CounterIsDebt(cfg, past);
      assert t == past + [Last(t)];
      var s := After(past);
      if Last(t).Deliver? {
        DeliveryEffect(past, Last(t).item, Last(t).now);
        DeliveryDebt(past, Last(t).item, Last(t).now);
        CoversDelivery(s.inflight, Debt(past), Unfinished(past), s.leased.Keys, Last(t).item.workId);
      } else if Last(t).Ack? {
        AckEffect(past, Last(t).id);
        CoversAck(s.inflight, Debt(past), Unfinished(past), s.leased.Keys, Last(t).id);
      }
    }
  }

  lemma SubsetOfBag<T>(s: set<T>, m: multiset<T>)
    requires forall x :: x in s ==> x in m
    ensures |s| <= |m|
  {
    assert multiset(s) <= m;
    assert m == multiset(s) + (m - multiset(s));
  }

  /** The leases never outnumber the in-flight count, after any step of the history. */
  ghost predicate LeasesWithinCount(t: Trace)
  {
    |After(t).leased.Keys| <= After(t).inflight && (t == [] || LeasesWithinCount(Front(t)))
  }

  lemma OverflowUncoversLeases(past: Trace, e: Event)
    requires e.Deliver? && After(past).items != [] && After(past).inflight + 1 == U32_RANGE
    ensures After(past + [e]).inflight == 0 < |After(past + [e]).leased.Keys|
  {
    Extend(past, e);
    assert e.item.workId in After(past + [e]).leased.Keys;
  }

  /** With completions paired to deliveries, the reported in-flight count covers every lease
      exactly as long as no delivery overflows the 32-bit counter. */
  lemma {:induction false} InflightCoversLeases(cfg: Config, t: Trace)
    requires Possible(cfg, t) && Paired(t)
    ensures LeasesWithinCount(t) <==> CounterFits(t)
  {
    if t != [] {
      InflightCoversLeases(cfg, Front(t));
      assert t == Front(t) + [Last(t)];
      if CounterFits(t) {
        CounterIsDebt(cfg, t);
        SubsetOfBag(After(t).leased.Keys, Debt(t));
      } else if CounterFits(Front(t)) {
        OverflowUncoversLeases(Front(t), Last(t));
      }
    }
  }

  // ----- Ids the node makes up, and draining -----

  /** Every accepted item came without an id of its own. */
  predicate AllGenerated(t: Trace)
  {
    t == [] || (AllGenerated(Front(t)) && (Last(t).Accept? ==> Last(t).generated))
  }

  lemma GeneratedIdsDiffer(cfg: Config, m: nat, n: nat)
    requires m != n
    ensures GeneratedId(cfg, m) != GeneratedId(cfg, n)
  {
    var k := |cfg.nodeId + "-"|;
    assert GeneratedId(cfg, m)[k..] == Decimal.Of(m) && GeneratedId(cfg, n)[k..] == Decimal.Of(n);
    if Decimal.Of(m) == Decimal.Of(n) { Decimal.OfInjective(m, n); }
  }

  lemma {:induction false} GeneratedIdsBelow(cfg: Config, t: Trace, n: nat)
    requires Possible(cfg, t) && AllGenerated(t) && n >= After(t).seqNo
    ensures GeneratedId(cfg, n) !in AcceptedIds(t)
  {
    if t != [] {
      GeneratedIdsBelow(cfg, Front(t), n);
      if Last(t).Accept? { GeneratedIdsDiffer(cfg, After(Front(t)).seqNo, n); }
    }
  }

  /** A node that makes up every id itself never reuses one. */
  lemma {:induction false} GeneratedIdsAreFresh(cfg: Config, t: Trace)
    requires Possible(cfg, t) && AllGenerated(t)
    ensures Fresh(t)
  {
    if t != [] {
      GeneratedIdsAreFresh(cfg, Front(t));
      if Last(t).Accept? { GeneratedIdsBelow(cfg, Front(t), After(Front(t)).seqNo); }
    }
  }

  /** A caller has used exactly this id for an item of its own. */
  predicate CallerUsed(t: Trace, id: string) {
    exists k :: 0 <= k < |t| && t[k].Accept? && !t[k].generated && t[k].item.workId == id
  }

  lemma {:induction false} AcceptedByCallerOrNode(cfg: Config, t: Trace, n: nat)
    requires Possible(cfg, t) && n >= After(t).seqNo
    ensures GeneratedId(cfg, n) in AcceptedIds(t) <==> CallerUsed(t, GeneratedId(cfg, n))
  {
    if t != [] {
      var id, past := GeneratedId(cfg, n), Front(t);
      AcceptedByCallerOrNode(cfg, past, n);
      if CallerUsed(past, id) {
        var k :| 0 <= k < |past| && past[k].Accept? && !past[k].generated && past[k].item.workId == id;
        assert t[k] == past[k];
      }
      if CallerUsed(t, id) {
        var k :| 0 <= k < |t| && t[k].Accept? && !t[k].generated && t[k].item.workId == id;
        assert k < |past| ==> past[k] == t[k];
      }
      if Last(t).Accept? && Last(t).generated { GeneratedIdsDiffer(cfg, After(past).seqNo, n); }
      assert t[|t| - 1] == Last(t);
    }
  }

  /** The id the node would make up next was accepted before exactly when some caller has used it
      as an id of its own. */
  lemma MadeUpIdCollidesIff(cfg: Config, t: Trace)
    requires Possible(cfg, t)
    ensures GeneratedId(cfg, After(t).seqNo) in AcceptedIds(t) <==> CallerUsed(t, GeneratedId(cfg, After(t).seqNo))
  {
    AcceptedByCallerOrNode(cfg, t, After(t).seqNo);
  }

  /** A caller's own id can collide with one the node makes up later. */
  lemma GeneratedIdCanCollide()
    ensures var cfg := Config("node-local", 512);
            var i := Item("node-local-1", "", 0, 0, 0);
            var t := [Accept(i, false), Accept(i, true)];
            Possible(cfg, t) && !Fresh(t)
  {
    var cfg, i := Config("node-local", 512), Item("node-local-1", "", 0, 0, 0);
    Extend([], Accept(i, false));
    Extend([Accept(i, false)], Accept(i, true));
    assert [] + [Accept(i, false)] == [Accept(i, false)];
    assert Possible(cfg, []) && Possible(cfg, [Accept(i, false)]);
    assert [Accept(i, false)] + [Accept(i, true)] == [Accept(i, false), Accept(i, true)];
    assert Decimal.Of(1) == "1";
  }

  /** Once drained, a node accepts nothing more. An enqueue stands in the history where it reads the
      flag: one that read it before the drain may still be appending when the drain returns. */
  lemma {:induction false} NothingAcceptedAfterClose(cfg: Config, t: Trace, k: nat)
    requires Possible(cfg, t) && k < |t| && t[k].Close?
    ensures !After(t).accepting && Accepted(t) == Accepted(t[..k])
  {
    if k < |t| - 1 {
      NothingAcceptedAfterClose(cfg, Front(t), k);
      assert Front(t)[..k] == t[..k];
    }
  }
}

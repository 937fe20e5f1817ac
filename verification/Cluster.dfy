/** The cluster node itself: the object whose methods update queue, leases and counters
    (crates/bulwark-cluster/src/lib.rs). Each method is one critical section of the
    Rust code; the ghost `trace` records the steps it takes, so that every law about
    histories in `WorkQueueLaws` is a law about every reachable node. */
module ClusterNode {
  import opened Base
  import opened WorkQueue
  import Decimal
  import LeaseTimes
  import WorkQueueLaws

  datatype EnqueueResponse = EnqueueResponse(workId: string, queuePosition: u32, accepted: bool)

  /** A protobuf message without fields set. */
  const DEFAULT_ITEM: Item := Item("", "", 0, 0, 0)

  function ExpireEvents(ids: seq<string>, now: nat): Trace {
    if ids == [] then [] else ExpireEvents(Front(ids), now) + [Expire(Last(ids), now)]
  }

  function DeliverEvents(items: seq<Item>, now: nat): Trace {
    if items == [] then [] else DeliverEvents(Front(items), now) + [Deliver(Last(items), now)]
  }

  /** `ids` lists the set `s`, each element once. */
  ghost predicate Lists(ids: seq<string>, s: set<string>) {
    if ids == [] then s == {} else Last(ids) in s && Lists(Front(ids), s - {Last(ids)})
  }

  lemma {:induction false} ListsMeans(ids: seq<string>, s: set<string>)
    requires Lists(ids, s)
    ensures forall id :: id in ids <==> id in s
    ensures forall i, j :: 0 <= i < j < |ids| ==> ids[i] != ids[j]
  {
    if ids != [] {
      ListsMeans(Front(ids), s - {Last(ids)});
      assert ids == Front(ids) + [Last(ids)];
    }
  }

  function Due(leased: map<string, Lease>, now: nat): set<string> {
    set id | id in leased && leased[id].deadline <= now
  }

  /** What expiring the leases `ids`, in this order, leaves at the front of the queue. */
  function Requeued(leased: map<string, Lease>, ids: seq<string>): seq<Item> {
    if ids == [] then []
    else if Last(ids) in leased then [Retry(leased[Last(ids)].item)] + Requeued(leased, Front(ids))
    else Requeued(leased, Front(ids))
  }

  /** A node after expiring the leases `ids` in this order. */
  ghost function RequeueAll(s: State, ids: seq<string>, now: nat): State {
    if ids == [] then s else Step(RequeueAll(s, Front(ids), now), Expire(Last(ids), now))
  }

  /** A node after handing out its first `k` queued items. */
  ghost function HandOut(s: State, k: nat, now: nat): State
    requires k <= |s.items|
  {
    if k == 0 then s else Step(HandOut(s, k - 1, now), Deliver(s.items[k - 1], now))
  }

  lemma {:induction false} HandOutQueue(s: State, k: nat, now: nat)
    requires k <= |s.items|
    ensures HandOut(s, k, now).items == s.items[k..]
  {
    if k > 0 { HandOutQueue(s, k - 1, now); }
  }

  lemma {:induction false} HandOutRuns(cfg: Config, s: State, k: nat, now: nat)
    requires k <= |s.items|
    ensures var es := DeliverEvents(s.items[..k], now);
            Runs(cfg, s, now, es) && Steps(s, es) == HandOut(s, k, now)
  {
    if k > 0 {
      HandOutRuns(cfg, s, k - 1, now);
      HandOutQueue(s, k - 1, now);
      assert Front(s.items[..k]) == s.items[..k - 1];
      RunsMore(cfg, s, now, DeliverEvents(s.items[..k - 1], now), Deliver(s.items[k - 1], now));
    }
  }

  /** Expiring some due leases leaves the other leases and puts their items in front. */
  lemma {:induction false} RequeueAllRuns(cfg: Config, s: State, ids: seq<string>, due: set<string>, now: nat)
    requires Lists(ids, due) && due <= Due(s.leased, now)
    ensures var es := ExpireEvents(ids, now);
            Runs(cfg, s, now, es) && Steps(s, es) == RequeueAll(s, ids, now)
    ensures RequeueAll(s, ids, now).leased == s.leased - due
    ensures RequeueAll(s, ids, now).items == Requeued(s.leased, ids) + s.items
  {
    if ids != [] {
      var id := Last(ids);
      RequeueAllRuns(cfg, s, Front(ids), due - {id}, now);
      assert id in s.leased - (due - {id});
      RunsMore(cfg, s, now, ExpireEvents(Front(ids), now), Expire(id, now));
    }
  }

  /** Requeueing the due leases and handing out `k` items, as one run of steps. */
  lemma DequeueRuns(cfg: Config, s: State, ids: seq<string>, k: nat, now: nat)
    requires Lists(ids, Due(s.leased, now)) && k <= |Requeued(s.leased, ids) + s.items|
    ensures var queue := Requeued(s.leased, ids) + s.items;
            var es := ExpireEvents(ids, now) + DeliverEvents(queue[..k], now);
            && RequeueAll(s, ids, now).items == queue
            && Runs(cfg, s, now, es)
            && Steps(s, es) == HandOut(RequeueAll(s, ids, now), k, now)
            && Steps(s, es).items == queue[k..]
  {
    RequeueAllRuns(cfg, s, ids, Due(s.leased, now), now);
    var s' := RequeueAll(s, ids, now);
    HandOutRuns(cfg, s', k, now);
    HandOutQueue(s', k, now);
    RunsJoin(cfg, s, now, ExpireEvents(ids, now), DeliverEvents(s'.items[..k], now));
  }

  // ----- What a dequeue brings back, read off the history -----

  lemma {:induction false} RequeuedSize(leased: map<string, Lease>, ids: seq<string>)
    ensures |Requeued(leased, ids)| <= |ids|
  {
    if ids != [] { RequeuedSize(leased, Front(ids)); }
  }

  lemma {:induction false} RequeuedHas(leased: map<string, Lease>, ids: seq<string>, id: string)
    requires id in ids && id in leased
    ensures Retry(leased[id].item) in Requeued(leased, ids)
  {
    if Last(ids) != id {
      assert ids == Front(ids) + [Last(ids)];
      RequeuedHas(leased, Front(ids), id);
    }
  }

  /** An item handed out at `d` and not heard of since comes back exactly from 30 seconds later on,
      and a large enough dequeue hands it out again with one more attempt. */
  lemma UnackedComesBack(cfg: Config, t: Trace, item: Item, d: nat, now: nat, expired: seq<string>, n: nat)
    requires Possible(cfg, t) && LeaseTimes.OutSince(t, item, d) && Lists(expired, Due(After(t).leased, now))
    ensures item.workId in expired <==> now >= d + 30_000_000_000
    ensures var queue := Requeued(After(t).leased, expired) + After(t).items;
            now >= d + 30_000_000_000 && n >= |expired| + |After(t).items| ==>
              item.(attempts := (item.attempts + 1) % 0x1_0000_0000) in queue[..Min(n, |queue|)]
  {
    LeaseTimes.LeaseIsLastDelivery(cfg, t, item, d);
    ListsMeans(expired, Due(After(t).leased, now));
    if now >= d + 30_000_000_000 {
      var back := Requeued(After(t).leased, expired);
      RequeuedHas(After(t).leased, expired, item.workId);
      RequeuedSize(After(t).leased, expired);
      assert Retry(item) in back + After(t).items;
      assert (back + After(t).items)[..|back + After(t).items|] == back + After(t).items;
    }
  }

  /** Every item handed out and not heard of since is requeued exactly from 30 seconds on. */
  ghost predicate RequeuedOnTime(t: Trace, now: nat, expired: seq<string>) {
    forall item, d: nat :: LeaseTimes.OutSince(t, item, d) ==>
      (item.workId in expired <==> now >= d + 30_000_000_000)
  }

  /** And is then among the items handed out, with one more attempt. */
  ghost predicate HandedOutAgain(t: Trace, now: nat, delivered: seq<Item>) {
    forall item, d: nat :: LeaseTimes.OutSince(t, item, d) && now >= d + 30_000_000_000 ==>
      item.(attempts := (item.attempts + 1) % 0x1_0000_0000) in delivered
  }

  lemma AllUnackedComeBack(cfg: Config, t: Trace, now: nat, expired: seq<string>, n: nat)
    requires Possible(cfg, t) && Lists(expired, Due(After(t).leased, now))
    ensures RequeuedOnTime(t, now, expired)
    ensures var queue := Requeued(After(t).leased, expired) + After(t).items;
            n >= |expired| + |After(t).items| ==> HandedOutAgain(t, now, queue[..Min(n, |queue|)])
  {
    var queue := Requeued(After(t).leased, expired) + After(t).items;
    forall item, d: nat | LeaseTimes.OutSince(t, item, d)
      ensures item.workId in expired <==> now >= d + 30_000_000_000
      ensures now >= d + 30_000_000_000 && n >= |expired| + |After(t).items| ==>
                item.(attempts := (item.attempts + 1) % 0x1_0000_0000) in queue[..Min(n, |queue|)]
    {
      UnackedComesBack(cfg, t, item, d, now, expired, n);
    }
  }

  class Cluster {
    const cfg: Config
    var items: seq<Item>
    var leased: map<string, Lease>
    var inflight: u32
    var seqNo: nat
    var accepting: bool
    ghost var trace: Trace

    ghost function Current(): State
      reads this
    {
      State(items, leased, inflight, seqNo, accepting)
    }

    ghost predicate Valid()
      reads this
    {
      Possible(cfg, trace) && After(trace) == Current()
    }

    constructor (cfg: Config)
      ensures Valid() && this.cfg == cfg && trace == [] && Current() == Initial
    {
      this.cfg := cfg;
      items, leased, inflight, seqNo, accepting := [], map[], 0, 1, true;
      trace := [];
    }

    /** Appends the steps a critical section has just taken to the history. */
    ghost method Record(es: Trace, now: nat)
      requires Possible(cfg, trace) && Clock(trace) <= now && Runs(cfg, After(trace), now, es)
      requires Current() == Steps(After(trace), es)
      modifies this`trace
      ensures Valid() && trace == old(trace) + es
    {
      ExtendAll(cfg, trace, now, es);
      trace := trace + es;
    }

    /** Accepts an item unless the node is closed or the queue is at its depth limit. */
    method Enqueue(offered: Option<Item>) returns (r: EnqueueResponse)
      requires Valid()
      modifies this
      ensures Valid()
      ensures r.accepted <==> old(accepting) && AsU32(|old(items)|) < cfg.backpressureDepth
      ensures !r.accepted ==> trace == old(trace) && r.workId == "" && r.queuePosition == AsU32(|old(items)|)
      ensures r.accepted ==>
                var i := if offered.Some? then offered.value else DEFAULT_ITEM;
                && trace == old(trace) + [Accept(i.(workId := r.workId), i.workId == "")]
                && r.workId == (if i.workId == "" then cfg.nodeId + "-" + Decimal.Of(old(seqNo)) else i.workId)
                && seqNo == (if i.workId == "" then old(seqNo) + 1 else old(seqNo))
                && items == old(items) + [i.(workId := r.workId)]
                && r.queuePosition == AsU32(|items|)
    {
      var depth := AsU32(|items|);
      if !accepting || depth >= cfg.backpressureDepth {
        return EnqueueResponse("", depth, false);
      }
      var item := if offered.Some? then offered.value else DEFAULT_ITEM;
      var workId := item.workId;
      if item.workId == "" {
        workId := GeneratedId(cfg, seqNo);
        seqNo := seqNo + 1;
      }
      ghost var generated := item.workId == "";
      item := item.(workId := workId);
      items := items + [item];
      RecordOne(Accept(item, generated));
      return EnqueueResponse(workId, AsU32(|items|), true);
    }

    /** One pass of the long-poll loop: requeue every due lease, in the arbitrary order the
        lease table is walked in, then hand out up to `maxItems` items from the front. */
    method Dequeue(maxItems: u32, now: nat) returns (delivered: seq<Item>, ghost expired: seq<string>)
      requires Valid() && Clock(trace) <= now
      modifies this
      ensures Valid()
      ensures trace == old(trace) + (ExpireEvents(expired, now) + DeliverEvents(delivered, now))
      ensures Lists(expired, Due(old(leased), now))
      ensures forall id :: id in expired <==> id in old(leased) && old(leased)[id].deadline <= now
      ensures RequeuedOnTime(old(trace), now, expired)
      ensures maxItems >= |expired| + |old(items)| ==> HandedOutAgain(old(trace), now, delivered)
      ensures var queue := Requeued(old(leased), expired) + old(items);
              var n := Min(Max(maxItems, 1), |queue|);
              delivered == queue[..n] && items == queue[n..]
    {
      ghost var t := trace;
      delivered, expired := RequeueAndDeliver(maxItems, now);
      AllUnackedComeBack(cfg, t, now, expired, Max(maxItems, 1));
    }

    method RequeueAndDeliver(maxItems: u32, now: nat) returns (delivered: seq<Item>, ghost expired: seq<string>)
      requires Valid() && Clock(trace) <= now
      modifies this
      ensures Valid()
      ensures trace == old(trace) + (ExpireEvents(expired, now) + DeliverEvents(delivered, now))
      ensures Lists(expired, Due(old(leased), now))
      ensures forall id :: id in expired <==> id in old(leased) && old(leased)[id].deadline <= now
      ensures var queue := Requeued(old(leased), expired) + old(items);
              var n := Min(Max(maxItems, 1), |queue|);
              delivered == queue[..n] && items == queue[n..]
    {
      ghost var s := Current();
      expired := RequeueDue(now);
      DequeueRuns(cfg, s, expired, 0, now);
      delivered := DeliverUpTo(if maxItems > 1 then maxItems else 1, now);
      DequeueRuns(cfg, s, expired, |delivered|, now);
      Record(ExpireEvents(expired, now) + DeliverEvents(delivered, now), now);
    }

    /** Requeues every due lease, in the order the lease table happens to be walked in. */
    method RequeueDue(now: nat) returns (ghost expired: seq<string>)
      modifies this`items, this`leased
      ensures Lists(expired, Due(old(leased), now))
      ensures forall id :: id in expired <==> id in old(leased) && old(leased)[id].deadline <= now
      ensures Current() == RequeueAll(old(Current()), expired, now)
    {
      ghost var s, all := Current(), Due(leased, now);
      var due := Due(leased, now);
      expired := [];
      while due != {}
        invariant due <= all && Lists(expired, all - due)
        invariant forall id :: id in due ==> id in leased
        invariant Current() == RequeueAll(s, expired, now)
        decreases due
      {
        var id :| id in due;
        items := [Retry(leased[id].item)] + items;
        leased := leased - {id};
        assert Front(expired + [id]) == expired && all - (due - {id}) - {id} == all - due;
        due := due - {id};
        expired := expired + [id];
      }
      assert all - due == all;
      ListsMeans(expired, all);
    }

    /** Hands out up to `n` items from the front. */
    method DeliverUpTo(n: u32, now: nat) returns (delivered: seq<Item>)
      modifies this`items, this`leased, this`inflight
      ensures var k := Min(n, |old(items)|);
              delivered == old(items)[..k] && Current() == HandOut(old(Current()), k, now)
    {
      ghost var s := Current();
      delivered := [];
      while |delivered| < n && items != []
        invariant |delivered| <= Min(n, |s.items|) && delivered == s.items[..|delivered|]
        invariant Current() == HandOut(s, |delivered|, now) && |items| == |s.items| - |delivered|
        decreases |items|
      {
        HandOutQueue(s, |delivered|, now);
        var i := DeliverFront(now);
        delivered := delivered + [i];
      }
    }

    /** Hands out the front item under a fresh lease and counts it as in flight. */
    method DeliverFront(now: nat) returns (i: Item)
      requires items != []
      modifies this`items, this`leased, this`inflight
      ensures old(items) == [i] + items
      ensures Current() == Step(old(Current()), Deliver(i, now))
    {
      i := items[0];
      items := items[1..];
      inflight := AsU32(inflight + 1);
      leased := leased[i.workId := Lease(i, now + LEASE_TTL)];
    }

    /** A worker's acknowledgement: the lease goes, then the in-flight count drops. */
    method Complete(id: string)
      requires Valid()
      modifies this
      ensures Valid() && trace == old(trace) + [Ack(id)] + [Finish]
      ensures leased == old(leased) - {id} && items == old(items)
    {
      leased := leased - {id};
      RecordOne(Ack(id));
      CompleteInflight();
    }

    /** The saturating decrement; its compare-exchange loop is the subject of `InflightCounter`. */
    method CompleteInflight()
      requires Valid()
      modifies this
      ensures Valid() && trace == old(trace) + [Finish]
      ensures leased == old(leased) && items == old(items)
      ensures inflight == if old(inflight) == 0 then 0 else old(inflight) - 1
    {
      if inflight > 0 {
        inflight := inflight - 1;
      }
      RecordOne(Finish);
    }

    ghost method RecordOne(e: Event)
      requires Possible(cfg, trace) && Enabled(cfg, After(trace), Clock(trace), e) && !e.Expire? && !e.Deliver?
      requires Current() == Step(After(trace), e)
      modifies this`trace
      ensures Valid() && trace == old(trace) + [e]
    {
      Extend(trace, e);
      trace := trace + [e];
    }

    method Drain() returns (reported: u32)
      requires Valid()
      modifies this
      ensures Valid() && trace == old(trace) + [Close] && reported == inflight == old(inflight)
    {
      accepting := false;
      RecordOne(Close);
      reported := inflight;
    }

    method Leave(graceful: bool)
      requires Valid()
      modifies this
      ensures Valid() && trace == old(trace) + if graceful then [Close] else []
    {
      if graceful {
        accepting := false;
        RecordOne(Close);
      }
    }
  }

  // ----- Abandoned work comes back -----

  lemma {:induction false} RequeuedCopies(x: Item, leased: map<string, Lease>, ids: seq<string>, s: set<string>)
    requires Lists(ids, s) && s <= leased.Keys
    requires forall id :: id in leased ==> leased[id].item.workId == id
    ensures Copies(x, Requeued(leased, ids)) == if x.workId in s then LeasedCopies(x, leased) else 0
  {
    if ids != [] {
      RequeuedCopies(x, leased, Front(ids), s - {Last(ids)});
      var r := Requeued(leased, Front(ids));
      var i := Retry(leased[Last(ids)].item);
      assert ([i] + r)[1..] == r;
      assert Core(i) == Core(leased[Last(ids)].item);
    }
  }

  /** 30 seconds after the last step every lease has run out. */
  lemma AllRunOut(cfg: Config, t: Trace, now: nat)
    requires Possible(cfg, t) && now >= Clock(t) + 30_000_000_000
    ensures Due(After(t).leased, now) == After(t).leased.Keys
  {
    forall id | id in After(t).leased ensures After(t).leased[id].deadline <= now {
      var item, d := LeaseTimes.LeaseWasDelivered(cfg, t, id);
    }
  }

  /** A large enough dequeue, 30 seconds after anything else happened, hands out every item that was
      accepted and neither acknowledged nor overwritten. */
  lemma AbandonedWorkComesBack(cfg: Config, t: Trace, now: nat, expired: seq<string>, maxItems: u32, x: Item)
    requires Possible(cfg, t) && now >= Clock(t) + 30_000_000_000
    requires Lists(expired, Due(After(t).leased, now))
    requires maxItems >= |Requeued(After(t).leased, expired) + After(t).items|
    ensures var queue := Requeued(After(t).leased, expired) + After(t).items;
            Copies(x, queue[..Min(Max(maxItems, 1), |queue|)])
            == Copies(x, Accepted(t)) - WorkQueue.AckedWhileLeased(x, t) - WorkQueue.Overwritten(x, t)
  {
    var s := After(t);
    AllRunOut(cfg, t, now);
    forall id | id in s.leased
      ensures s.leased[id].item.workId == id
    {
      WorkQueueLaws.LeasesKeyedById(cfg, t, id);
    }
    var back := Requeued(s.leased, expired);
    RequeuedCopies(x, s.leased, expired, s.leased.Keys);
    WorkQueueLaws.CopiesOfConcat(x, back, s.items);
    WorkQueueLaws.Conservation(cfg, t, x);
    assert (back + s.items)[..|back + s.items|] == back + s.items;
  }
}

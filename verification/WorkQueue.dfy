/** The leased work queue of one cluster node (crates/bulwark-cluster/src/lib.rs) as a
    machine of indivisible steps. A `Trace` is the history of a queue: the state after
    it is `After(trace)`, so a statement about all `Possible` traces is a statement about
    every run and every reachable state, whatever order the calls interleave in. */
module WorkQueue {
  import opened Base
  import Decimal

  datatype Item = Item(workId: string, request: string, priority: int, enqueuedTs: int, attempts: u32)

  /** A delivered, not yet acknowledged item, and when its lease runs out. */
  datatype Lease = Lease(item: Item, deadline: nat)

  /** The visibility timeout: 30 seconds, in nanoseconds. */
  const LEASE_TTL: nat := 30_000_000_000

  datatype Config = Config(nodeId: string, backpressureDepth: u32)

  datatype State = State(
    items: seq<Item>,
    leased: map<string, Lease>,
    inflight: u32,
    seqNo: nat,
    accepting: bool)

  const Initial: State := State([], map[], 0, 1, true)

  datatype Event =
    | Accept(item: Item, generated: bool)  // an accepted enqueue; the item has its final id
    | Expire(id: string, now: nat)         // one due lease goes back to the front of the queue
    | Deliver(item: Item, now: nat)        // the front item is handed out under a lease
    | Ack(id: string)                      // the lease removal of `complete`
    | Finish                               // one `complete_inflight`
    | Close                                // `drain`, or a graceful `leave`

  type Trace = seq<Event>

  /** The id the node makes up for an item that arrives without one. */
  function GeneratedId(cfg: Config, seqNo: nat): string {
    cfg.nodeId + "-" + Decimal.Of(seqNo)
  }

  function Retry(i: Item): Item {
    i.(attempts := AsU32(i.attempts + 1))
  }

  function Step(s: State, e: Event): State {
    match e
    case Accept(item, generated) =>
      s.(items := s.items + [item], seqNo := if generated then s.seqNo + 1 else s.seqNo)
    case Expire(id, _) =>
      if id in s.leased
      then s.(items := [Retry(s.leased[id].item)] + s.items, leased := s.leased - {id})
      else s
    case Deliver(item, now) =>
      if s.items == [] then s
      else s.(items := s.items[1..],
              leased := s.leased[item.workId := Lease(item, now + LEASE_TTL)],
              inflight := AsU32(s.inflight + 1))
    case Ack(id) => s.(leased := s.leased - {id})
    case Finish => s.(inflight := if s.inflight > 0 then s.inflight - 1 else 0)
    case Close => s.(accepting := false)
  }

  /** When each step can be taken. Any `Ack` can arrive at any time, from any worker. */
  predicate Enabled(cfg: Config, s: State, clock: nat, e: Event) {
    match e
    case Accept(item, generated) =>
      && s.accepting
      && AsU32(|s.items|) < cfg.backpressureDepth
      && (if generated then item.workId == GeneratedId(cfg, s.seqNo) else item.workId != "")
    case Expire(id, now) => clock <= now && id in s.leased && s.leased[id].deadline <= now
    case Deliver(item, now) => clock <= now && s.items != [] && item == s.items[0]
    case Ack(_) => true
    case Finish => true
    case Close => true
  }

  function After(t: Trace): State
  {
    if t == [] then Initial else Step(After(Front(t)), Last(t))
  }

  /** The latest clock reading in the history; the clock itself is monotonic. */
  function Clock(t: Trace): nat
  {
    if t == [] then 0
    else if Last(t).Expire? || Last(t).Deliver? then Last(t).now
    else Clock(Front(t))
  }

  predicate Possible(cfg: Config, t: Trace)
  {
    t == [] || (Possible(cfg, Front(t)) && Enabled(cfg, After(Front(t)), Clock(Front(t)), Last(t)))
  }

  // ----- What a history says, read off its events -----

  function Accepted(t: Trace): seq<Item>
  {
    if t == [] then []
    else if Last(t).Accept? then Accepted(Front(t)) + [Last(t).item]
    else Accepted(Front(t))
  }

  function AcceptedIds(t: Trace): set<string>
  {
    if t == [] then {}
    else if Last(t).Accept? then AcceptedIds(Front(t)) + {Last(t).item.workId}
    else AcceptedIds(Front(t))
  }

  /** The items handed out for the first time: no earlier delivery had the same id. */
  function FirstDelivered(t: Trace): seq<Item>
  {
    if t == [] then []
    else if Last(t).Deliver? && Last(t).item.workId !in DeliveredIds(Front(t))
    then FirstDelivered(Front(t)) + [Last(t).item]
    else FirstDelivered(Front(t))
  }

  function DeliveredIds(t: Trace): set<string>
  {
    if t == [] then {}
    else if Last(t).Deliver? then DeliveredIds(Front(t)) + {Last(t).item.workId}
    else DeliveredIds(Front(t))
  }

  predicate AcceptsId(e: Event, id: string) {
    e.Accept? && e.item.workId == id
  }

  /** When an id was last delivered since it was last accepted. */
  function LastDelivery(t: Trace, id: string): Option<nat>
  {
    if t == [] || AcceptsId(Last(t), id) then None
    else if Last(t).Deliver? && Last(t).item.workId == id then Some(Last(t).now)
    else LastDelivery(Front(t), id)
  }

  /** How many leases of an id expired since it was last accepted. */
  function Expiries(t: Trace, id: string): nat
  {
    if t == [] || AcceptsId(Last(t), id) then 0
    else Expiries(Front(t), id) + if Last(t).Expire? && Last(t).id == id then 1 else 0
  }

  /** The `attempts` an id was last accepted with. */
  function InitialAttempts(t: Trace, id: string): u32
  {
    if t == [] then 0
    else if AcceptsId(Last(t), id) then Last(t).item.attempts
    else InitialAttempts(Front(t), id)
  }

  /** An item apart from its redelivery counter. */
  function Core(i: Item): Item {
    i.(attempts := 0)
  }

  /** How often the item `x` occurs in a sequence, whatever its redelivery counter. */
  function Copies(x: Item, s: seq<Item>): nat {
    if s == [] then 0 else Copies(x, s[1..]) + if Core(s[0]) == Core(x) then 1 else 0
  }

  function LeasedCopies(x: Item, m: map<string, Lease>): nat {
    if x.workId in m && Core(m[x.workId].item) == Core(x) then 1 else 0
  }

  /** Acknowledgements that found `x` leased. */
  function AckedWhileLeased(x: Item, t: Trace): nat
  {
    if t == [] then 0
    else if Last(t).Ack? && Last(t).id == x.workId
    then AckedWhileLeased(x, Front(t)) + LeasedCopies(x, After(Front(t)).leased)
    else AckedWhileLeased(x, Front(t))
  }

  /** Deliveries of an item with the id of `x` that found `x` leased, and replaced its lease. */
  function Overwritten(x: Item, t: Trace): nat
  {
    if t == [] then 0
    else if Last(t).Deliver? && Last(t).item.workId == x.workId
    then Overwritten(x, Front(t)) + LeasedCopies(x, After(Front(t)).leased)
    else Overwritten(x, Front(t))
  }

  function Queued(id: string, items: seq<Item>): nat {
    if items == [] then 0 else Queued(id, items[1..]) + if items[0].workId == id then 1 else 0
  }

  /** How often an id is outstanding, that is, queued or leased. */
  function Outstanding(id: string, s: State): nat {
    Queued(id, s.items) + if id in s.leased then 1 else 0
  }

  ghost predicate DistinctOutstanding(s: State) {
    forall id :: Outstanding(id, s) <= 1
  }

  /** Each accepted id was not outstanding when it was accepted. */
  predicate AcceptsNotOutstanding(t: Trace)
  {
    t == []
    || (AcceptsNotOutstanding(Front(t))
        && (Last(t).Accept? ==> Outstanding(Last(t).item.workId, After(Front(t))) == 0))
  }

  /** Each accepted id was never accepted before. */
  predicate Fresh(t: Trace)
  {
    t == []
    || (Fresh(Front(t)) && (Last(t).Accept? ==> Last(t).item.workId !in AcceptedIds(Front(t))))
  }

  // ----- The in-flight counter against the ledger of deliveries -----

  /** Deliveries that no `complete` call has been made for yet, by id. */
  function Debt(t: Trace): multiset<string>
  {
    if t == [] then multiset{}
    else if Last(t).Deliver? then Debt(Front(t)) + multiset{Last(t).item.workId}
    else if Last(t).Ack? then Debt(Front(t)) - multiset{Last(t).id}
    else Debt(Front(t))
  }

  /** `complete` calls that have removed their lease and not yet decremented the counter. */
  function Unfinished(t: Trace): int
  {
    if t == [] then 0
    else Unfinished(Front(t)) + if Last(t).Ack? then 1 else if Last(t).Finish? then -1 else 0
  }

  /** Every completion belongs to an earlier delivery of its id, at most one to each,
      and every decrement to the completion that makes it. */
  predicate Paired(t: Trace)
  {
    t == []
    || (&& Paired(Front(t))
        && (Last(t).Ack? ==> Last(t).id in Debt(Front(t)))
        && (Last(t).Finish? ==> Unfinished(Front(t)) > 0))
  }

  /** No delivery finds the counter at its maximum. */
  predicate CounterFits(t: Trace)
  {
    t == []
    || (CounterFits(Front(t)) && (Last(t).Deliver? ==> After(Front(t)).inflight + 1 < U32_RANGE))
  }

  /** A history one event longer. */
  lemma Extend(t: Trace, e: Event)
    ensures Front(t + [e]) == t && Last(t + [e]) == e
    ensures After(t + [e]) == Step(After(t), e)
  {
    assert Front(t + [e]) == t;
  }

  // ----- Several steps within one critical section, at one clock reading -----

  function Steps(s: State, es: Trace): State
  {
    if es == [] then s else Step(Steps(s, Front(es)), Last(es))
  }

  predicate Runs(cfg: Config, s: State, now: nat, es: Trace)
  {
    es == []
    || (&& Runs(cfg, s, now, Front(es))
        && Enabled(cfg, Steps(s, Front(es)), now, Last(es))
        && (Last(es).Expire? || Last(es).Deliver? ==> Last(es).now == now))
  }

  lemma {:induction false} ExtendAll(cfg: Config, t: Trace, now: nat, es: Trace)
    requires Possible(cfg, t) && Clock(t) <= now && Runs(cfg, After(t), now, es)
    ensures Possible(cfg, t + es) && After(t + es) == Steps(After(t), es) && Clock(t + es) <= now
  {
    if es == [] {
      assert t + es == t;
    } else {
      ExtendAll(cfg, t, now, Front(es));
      assert Front(t + es) == t + Front(es);
    }
  }

  lemma {:induction false} RunsJoin(cfg: Config, s: State, now: nat, es: Trace, fs: Trace)
    requires Runs(cfg, s, now, es) && Runs(cfg, Steps(s, es), now, fs)
    ensures Runs(cfg, s, now, es + fs) && Steps(s, es + fs) == Steps(Steps(s, es), fs)
  {
    if fs == [] {
      assert es + fs == es;
    } else {
      RunsJoin(cfg, s, now, es, Front(fs));
      assert Front(es + fs) == es + Front(fs);
    }
  }

  lemma RunsMore(cfg: Config, s: State, now: nat, es: Trace, e: Event)
    requires Runs(cfg, s, now, es) && Enabled(cfg, Steps(s, es), now, e)
    requires e.Expire? || e.Deliver? ==> e.now == now
    ensures Runs(cfg, s, now, es + [e]) && Steps(s, es + [e]) == Step(Steps(s, es), e)
  {
    assert Front(es + [e]) == es;
  }
}

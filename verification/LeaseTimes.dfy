/** When a lease runs out (crates/bulwark-cluster/src/lib.rs), read off the history alone: 30
    seconds after the delivery that made it. */
module LeaseTimes {
  import opened Base
  import opened WorkQueue

  predicate Concerns(e: Event, id: string) {
    match e
    case Deliver(item, _) => item.workId == id
    case Ack(acked) => acked == id
    case Expire(expired, _) => expired == id
    case _ => false
  }

  /** `item` was handed out at `d`, and since then no item of its id was handed out, acknowledged
      or requeued. */
  predicate OutSince(t: Trace, item: Item, d: nat) {
    t != []
    && if Concerns(Last(t), item.workId) then Last(t) == Deliver(item, d) else OutSince(Front(t), item, d)
  }

  /** The lease table is the deliveries still out, each with 30 seconds from its delivery. */
  lemma {:induction false} LeaseIsLastDelivery(cfg: Config, t: Trace, item: Item, d: nat)
    requires Possible(cfg, t)
    ensures OutSince(t, item, d)
       <==> item.workId in After(t).leased && After(t).leased[item.workId] == Lease(item, d + 30_000_000_000)
  {
    if t != [] { LeaseIsLastDelivery(cfg, Front(t), item, d); }
  }

  /** Every lease goes back to such a delivery, not after the latest clock reading. */
  lemma {:induction false} LeaseWasDelivered(cfg: Config, t: Trace, id: string) returns (item: Item, d: nat)
    requires Possible(cfg, t) && id in After(t).leased
    ensures item.workId == id && d <= Clock(t) && OutSince(t, item, d)
    ensures After(t).leased[id] == Lease(item, d + 30_000_000_000)
  {
    if Concerns(Last(t), id) {
      item, d := Last(t).item, Last(t).now;
    } else {
      item, d := LeaseWasDelivered(cfg, Front(t), id);
    }
  }
}

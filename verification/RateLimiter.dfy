/** Dedupe and burst coalescing of guardian alerts (crates/bulwark-alert/src/ratelimit.rs):
    an eagerly expiring map and deque, against a specification that looks only at the
    full history of calls. */
module RateLimiter {
  import opened Base

  datatype Config = Config(dedupeWindow: nat, burstWindow: nat, maxImmediate: u32, digestMax: nat)

  datatype Alert = Alert(alertId: string, context: string)

  datatype Decision = SendNow | Deduped | Coalesced

  // ----- The history-only specification -----

  /** One call on the limiter. */
  datatype Entry =
    | Judged(alert: Alert, now: nat, decision: Decision)
    | Charged(now: nat)              // `note_digest_sent`
    | Drained(alerts: seq<Alert>)    // `drain_digest` and what it returned

  type History = seq<Entry>

  function Clock(h: History): nat {
    if h == [] then 0 else if Last(h).Drained? then Clock(Front(h)) else Last(h).now
  }

  predicate Keeps(e: Entry, id: string) {
    e.Judged? && e.alert.alertId == id && !e.decision.Deduped?
  }

  /** Some alert with this id was let through less than `window` before `now`. */
  predicate RecentlyKept(h: History, id: string, now: nat, window: nat) {
    h != [] && ((Keeps(Last(h), id) && Since(now, Last(h).now) < window) || RecentlyKept(Front(h), id, now, window))
  }

  predicate Charges(e: Entry) {
    e.Charged? || (e.Judged? && e.decision.SendNow?)
  }

  /** The times at which something was charged to the burst budget. */
  function ChargeTimes(h: History): seq<nat> {
    if h == [] then []
    else if Charges(Last(h)) then ChargeTimes(Front(h)) + [Last(h).now]
    else ChargeTimes(Front(h))
  }

  function Live(times: seq<nat>, now: nat, window: nat): nat {
    if times == [] then 0 else Live(times[1..], now, window) + if Since(now, times[0]) < window then 1 else 0
  }

  /** The alerts coalesced since the digest was last drained. */
  function CoalescedSinceDrain(h: History): seq<Alert> {
    if h == [] || Last(h).Drained? then []
    else if Last(h).Judged? && Last(h).decision.Coalesced? then CoalescedSinceDrain(Front(h)) + [Last(h).alert]
    else CoalescedSinceDrain(Front(h))
  }

  /** The digest holds the first `digestMax` of them. */
  function Pending(cfg: Config, h: History): seq<Alert> {
    var all := CoalescedSinceDrain(h);
    all[..Min(|all|, cfg.digestMax)]
  }

  /** What the limiter should answer, from the history alone. */
  function Judge(cfg: Config, h: History, alert: Alert, now: nat): Decision {
    if alert.alertId != "" && RecentlyKept(h, alert.alertId, now, cfg.dedupeWindow) then Deduped
    else if AsU32(Live(ChargeTimes(h), now, cfg.burstWindow)) < cfg.maxImmediate then SendNow
    else Coalesced
  }

  /** The clock never runs backwards. */
  predicate Chronological(h: History) {
    h == [] || (Chronological(Front(h)) && (!Last(h).Drained? ==> Clock(Front(h)) <= Last(h).now))
  }

  /** Every answer is the specified one. */
  predicate Lawful(cfg: Config, h: History) {
    h == []
    || (&& Lawful(cfg, Front(h))
        && (Last(h).Judged? ==> Last(h).decision == Judge(cfg, Front(h), Last(h).alert, Last(h).now))
        && (Last(h).Drained? ==> Last(h).alerts == Pending(cfg, Front(h))))
  }

  // ----- The limiter's own state -----

  datatype State = State(seen: map<string, nat>, recentSends: seq<nat>, pendingDigest: seq<Alert>)

  const Initial: State := State(map[], [], [])

  function DropAged(times: seq<nat>, now: nat, window: nat): seq<nat> {
    if times != [] && Since(now, times[0]) >= window then DropAged(times[1..], now, window) else times
  }

  function Expire(cfg: Config, s: State, now: nat): State {
    s.(seen := map id | id in s.seen && Since(now, s.seen[id]) < cfg.dedupeWindow :: s.seen[id],
       recentSends := DropAged(s.recentSends, now, cfg.burstWindow))
  }

  function Admit(cfg: Config, s: State, alert: Alert, now: nat): (State, Decision) {
    var s := Expire(cfg, s, now);
    if alert.alertId != "" && alert.alertId in s.seen && Since(now, s.seen[alert.alertId]) < cfg.dedupeWindow then
      (s, Deduped)
    else
      var s := if alert.alertId != "" then s.(seen := s.seen[alert.alertId := now]) else s;
      if AsU32(|s.recentSends|) < cfg.maxImmediate then
        (s.(recentSends := s.recentSends + [now]), SendNow)
      else if |s.pendingDigest| < cfg.digestMax then
        (s.(pendingDigest := s.pendingDigest + [alert]), Coalesced)
      else
        (s, Coalesced)
  }

  /** One call on the limiter, in the state `s`. */
  function Next(cfg: Config, s: State, e: Entry): State {
    match e
    case Judged(alert, now, _) => Admit(cfg, s, alert, now).0
    case Charged(now) => s.(recentSends := s.recentSends + [now])
    case Drained(_) => s.(pendingDigest := [])
  }

  /** The answer recorded is the one given in the state `s`. */
  predicate AnsweredIn(cfg: Config, s: State, e: Entry) {
    match e
    case Judged(alert, now, d) => d == Admit(cfg, s, alert, now).1
    case Charged(_) => true
    case Drained(alerts) => alerts == s.pendingDigest
  }

  /** The limiter's state after a history, whatever the order of its times. */
  function StateAfter(cfg: Config, h: History): State {
    if h == [] then Initial else Next(cfg, StateAfter(cfg, Front(h)), Last(h))
  }

  /** Every answer is the one the limiter gives in its state. */
  predicate Answered(cfg: Config, h: History) {
    h == [] || (Answered(cfg, Front(h)) && AnsweredIn(cfg, StateAfter(cfg, Front(h)), Last(h)))
  }

  lemma AnsweredMore(cfg: Config, h: History, e: Entry)
    ensures StateAfter(cfg, h + [e]) == Next(cfg, StateAfter(cfg, h), e)
    ensures Answered(cfg, h + [e]) <==> Answered(cfg, h) && AnsweredIn(cfg, StateAfter(cfg, h), e)
  {
    assert Front(h + [e]) == h;
  }

  // ----- Refinement -----

  function LastKept(h: History, id: string): Option<nat> {
    if h == [] then None
    else if Keeps(Last(h), id) then Some(Last(h).now)
    else LastKept(Front(h), id)
  }

  predicate Ascending(times: seq<nat>) {
    |times| < 2 || (times[0] <= times[1] && Ascending(times[1..]))
  }

  /** `seen` is the last time each id was let through, unless that has aged out. */
  ghost predicate RepSeen(cfg: Config, h: History, seen: map<string, nat>, clock: nat) {
    forall id :: id != "" ==>
      match LastKept(h, id)
      case None => id !in seen
      case Some(t) => t <= clock && if id in seen then seen[id] == t else Since(clock, t) >= cfg.dedupeWindow
  }

  /** `recent` is in order and, from `clock` on, has as many live times as the whole history. */
  ghost predicate RepRecent(cfg: Config, times: seq<nat>, recent: seq<nat>, clock: nat) {
    && Ascending(recent) && (recent != [] ==> Last(recent) <= clock)
    && forall now :: clock <= now ==> Live(recent, now, cfg.burstWindow) == Live(times, now, cfg.burstWindow)
  }

  ghost predicate Rep(cfg: Config, h: History, s: State) {
    && RepSeen(cfg, h, s.seen, Clock(h))
    && RepRecent(cfg, ChargeTimes(h), s.recentSends, Clock(h))
    && s.pendingDigest == Pending(cfg, h)
  }

  lemma {:induction false} RecentlyKeptIsLastKept(h: History, id: string, now: nat, window: nat)
    requires Chronological(h) && Clock(h) <= now
    ensures RecentlyKept(h, id, now, window) <==> LastKept(h, id).Some? && Since(now, LastKept(h, id).value) < window
    ensures LastKept(h, id).Some? ==> LastKept(h, id).value <= Clock(h)
  {
    if h != [] { RecentlyKeptIsLastKept(Front(h), id, now, window); }
  }

  lemma {:induction false} LiveMore(times: seq<nat>, t: nat, now: nat, window: nat)
    ensures Live(times + [t], now, window) == Live(times, now, window) + if Since(now, t) < window then 1 else 0
  {
    if times != [] {
      LiveMore(times[1..], t, now, window);
      assert (times + [t])[1..] == times[1..] + [t];
    }
  }

  lemma {:induction false} AscendingMore(times: seq<nat>, t: nat)
    requires Ascending(times) && (times != [] ==> Last(times) <= t)
    ensures Ascending(times + [t])
  {
    if |times| > 1 { AscendingMore(times[1..], t); }
    if times != [] { assert (times + [t])[1..] == times[1..] + [t]; }
  }

  lemma {:induction false} AllLive(times: seq<nat>, now: nat, window: nat)
    requires Ascending(times) && times != [] && Last(times) <= now && Since(now, times[0]) < window
    ensures Live(times, now, window) == |times|
  {
    if |times| > 1 { AllLive(times[1..], now, window); }
  }

  /** Popping aged times off the front of an ordered deque leaves exactly the live ones, and
      never a time that could matter later. */
  lemma {:induction false} DropAgedKeepsLive(times: seq<nat>, now: nat, later: nat, window: nat)
    requires Ascending(times) && (times != [] ==> Last(times) <= now) && now <= later
    ensures var kept := DropAged(times, now, window);
            && Ascending(kept) && (kept != [] ==> Last(kept) <= now)
            && |kept| == Live(times, now, window)
            && Live(kept, later, window) == Live(times, later, window)
  {
    if times != [] {
      if Since(now, times[0]) >= window {
        DropAgedKeepsLive(times[1..], now, later, window);
      } else {
        AllLive(times, now, window);
      }
    }
  }

  /** After expiry the deque is as long as the live charges of the whole history are many. */
  lemma ExpiredRecent(cfg: Config, times: seq<nat>, recent: seq<nat>, clock: nat, now: nat)
    requires RepRecent(cfg, times, recent, clock) && clock <= now
    ensures var kept := DropAged(recent, now, cfg.burstWindow);
            RepRecent(cfg, times, kept, now) && |kept| == Live(times, now, cfg.burstWindow)
  {
    forall later | now <= later
      ensures Live(DropAged(recent, now, cfg.burstWindow), later, cfg.burstWindow)
           == Live(times, later, cfg.burstWindow)
    {
      DropAgedKeepsLive(recent, now, later, cfg.burstWindow);
    }
    DropAgedKeepsLive(recent, now, now, cfg.burstWindow);
  }

  lemma ChargeNow(cfg: Config, times: seq<nat>, recent: seq<nat>, clock: nat, now: nat)
    requires RepRecent(cfg, times, recent, clock) && clock <= now
    ensures RepRecent(cfg, times + [now], recent + [now], now)
  {
    AscendingMore(recent, now);
    forall later | now <= later
      ensures Live(recent + [now], later, cfg.burstWindow) == Live(times + [now], later, cfg.burstWindow)
    {
      LiveMore(recent, now, later, cfg.burstWindow);
      LiveMore(times, now, later, cfg.burstWindow);
    }
  }

  /** A history one entry longer. */
  lemma Extend(h: History, e: Entry)
    ensures Front(h + [e]) == h && Last(h + [e]) == e
    ensures Clock(h + [e]) == if e.Drained? then Clock(h) else e.now
    ensures ChargeTimes(h + [e]) == if Charges(e) then ChargeTimes(h) + [e.now] else ChargeTimes(h)
  {
    assert Front(h + [e]) == h;
  }

  lemma PendingGrows(cfg: Config, h: History, e: Entry)
    requires e.Judged? && e.decision.Coalesced?
    ensures Pending(cfg, h + [e])
         == if |Pending(cfg, h)| < cfg.digestMax then Pending(cfg, h) + [e.alert] else Pending(cfg, h)
  {
    Extend(h, e);
  }

  lemma PendingStays(cfg: Config, h: History, e: Entry)
    requires e.Charged? || (e.Judged? && !e.decision.Coalesced?)
    ensures Pending(cfg, h + [e]) == Pending(cfg, h)
  {
    Extend(h, e);
  }

  lemma SeenAfterJudging(cfg: Config, h: History, s: State, alert: Alert, now: nat, d: Decision)
    requires Chronological(h) && Clock(h) <= now && RepSeen(cfg, h, s.seen, Clock(h))
    requires d.Deduped? ==> alert.alertId != "" && LastKept(h, alert.alertId).Some?
    ensures var seen := Expire(cfg, s, now).seen;
            var seen' := if d.Deduped? || alert.alertId == "" then seen else seen[alert.alertId := now];
            RepSeen(cfg, h + [Judged(alert, now, d)], seen', now)
  {
    Extend(h, Judged(alert, now, d));
  }

  lemma RecentAfterJudging(cfg: Config, h: History, s: State, alert: Alert, now: nat, d: Decision)
    requires RepRecent(cfg, ChargeTimes(h), s.recentSends, Clock(h)) && Clock(h) <= now
    ensures var recent := Expire(cfg, s, now).recentSends;
            && |recent| == Live(ChargeTimes(h), now, cfg.burstWindow)
            && RepRecent(cfg, ChargeTimes(h + [Judged(alert, now, d)]),
                         if d.SendNow? then recent + [now] else recent, now)
  {
    Extend(h, Judged(alert, now, d));
    ExpiredRecent(cfg, ChargeTimes(h), s.recentSends, Clock(h), now);
    ChargeNow(cfg, ChargeTimes(h), Expire(cfg, s, now).recentSends, now, now);
  }

  /** The limiter answers exactly as the history says it should. */
  lemma AdmitAnswers(cfg: Config, h: History, s: State, alert: Alert, now: nat)
    requires Chronological(h) && Rep(cfg, h, s) && Clock(h) <= now
    ensures Admit(cfg, s, alert, now).1 == Judge(cfg, h, alert, now)
  {
    RecentlyKeptIsLastKept(h, alert.alertId, now, cfg.dedupeWindow);
    RecentAfterJudging(cfg, h, s, alert, now, Deduped);
  }

  lemma AdmitKeepsRep(cfg: Config, h: History, s: State, alert: Alert, now: nat)
    requires Chronological(h) && Rep(cfg, h, s) && Clock(h) <= now
    ensures var (s', d) := Admit(cfg, s, alert, now);
            Rep(cfg, h + [Judged(alert, now, d)], s')
  {
    var (s', d) := Admit(cfg, s, alert, now);
    var e := Judged(alert, now, d);
    Extend(h, e);
    RecentAfterJudging(cfg, h, s, alert, now, d);
    SeenAfterJudging(cfg, h, s, alert, now, d);
    if d.Coalesced? { PendingGrows(cfg, h, e); } else { PendingStays(cfg, h, e); }
  }

  /** A limiter that has followed the specification so far. */
  ghost predicate Tracks(cfg: Config, h: History, s: State) {
    Chronological(h) && Lawful(cfg, h) && Rep(cfg, h, s)
  }

  /** Admitting an alert keeps to the specification. */
  lemma AdmitRefines(cfg: Config, h: History, s: State, alert: Alert, now: nat)
    requires Tracks(cfg, h, s) && Clock(h) <= now
    ensures var (s', d) := Admit(cfg, s, alert, now);
            d == Judge(cfg, h, alert, now) && Tracks(cfg, h + [Judged(alert, now, d)], s')
  {
    AdmitAnswers(cfg, h, s, alert, now);
    AdmitKeepsRep(cfg, h, s, alert, now);
    Extend(h, Judged(alert, now, Judge(cfg, h, alert, now)));
  }

  /** So does charging a digest to the burst budget. */
  lemma ChargeRefines(cfg: Config, h: History, s: State, now: nat)
    requires Tracks(cfg, h, s) && Clock(h) <= now
    ensures Tracks(cfg, h + [Charged(now)], s.(recentSends := s.recentSends + [now]))
  {
    Extend(h, Charged(now));
    ChargeNow(cfg, ChargeTimes(h), s.recentSends, Clock(h), now);
    PendingStays(cfg, h, Charged(now));
  }

  /** So does draining it. */
  lemma DrainRefines(cfg: Config, h: History, s: State)
    requires Tracks(cfg, h, s)
    ensures Tracks(cfg, h + [Drained(s.pendingDigest)], s.(pendingDigest := []))
  {
    Extend(h, Drained(s.pendingDigest));
    assert Pending(cfg, h + [Drained(s.pendingDigest)]) == [];
  }

  // ----- No id is let through twice within the dedupe window -----

  lemma {:induction false} KeptIsRecent(h: History, i: nat, now: nat, window: nat)
    requires i < |h| && h[i].Judged? && !h[i].decision.Deduped? && Since(now, h[i].now) < window
    ensures RecentlyKept(h, h[i].alert.alertId, now, window)
  {
    if i < |h| - 1 { KeptIsRecent(Front(h), i, now, window); }
  }

  lemma {:induction false} PrefixLawful(cfg: Config, h: History, k: nat)
    requires Chronological(h) && Lawful(cfg, h) && k <= |h|
    ensures Chronological(h[..k]) && Lawful(cfg, h[..k])
  {
    if k < |h| {
      PrefixLawful(cfg, Front(h), k);
      assert Front(h)[..k] == h[..k];
    } else {
      assert h[..k] == h;
    }
  }

  /** Two alerts with one id that are both let through are at least the dedupe window apart,
      whatever became of the mail: a failed send is not repeated sooner either. */
  lemma KeptApart(cfg: Config, h: History, i: nat, j: nat)
    requires Chronological(h) && Lawful(cfg, h) && i < j < |h|
    requires h[i].Judged? && h[j].Judged? && !h[i].decision.Deduped? && !h[j].decision.Deduped?
    requires h[i].alert.alertId == h[j].alert.alertId != ""
    ensures Since(h[j].now, h[i].now) >= cfg.dedupeWindow
  {
    PrefixLawful(cfg, h, j + 1);
    assert Front(h[..j + 1]) == h[..j];
    if Since(h[j].now, h[i].now) < cfg.dedupeWindow {
      KeptIsRecent(h[..j], i, h[j].now, cfg.dedupeWindow);
    }
  }

  // ----- The burst budget holds in every window -----

  /** Alerts sent as their own e-mail at times from `lo` to just before `hi`. */
  function SendsIn(h: History, lo: nat, hi: nat): nat {
    if h == [] then 0
    else
      var e := Last(h);
      SendsIn(Front(h), lo, hi) + if e.Judged? && e.decision.SendNow? && lo <= e.now < hi then 1 else 0
  }

  /** The 32-bit cast of the deque's length never loses a bit when it matters. */
  predicate BudgetCountFits(cfg: Config, h: History) {
    h == []
    || (&& BudgetCountFits(cfg, Front(h))
        && (Last(h).Judged? && Last(h).decision.SendNow? ==>
              Live(ChargeTimes(Front(h)), Last(h).now, cfg.burstWindow) < U32_RANGE))
  }

  /** Whatever is sent in a window that reaches to `now` is still live at `now`. */
  lemma {:induction false} SendsAreLive(h: History, lo: nat, hi: nat, now: nat, window: nat)
    requires Chronological(h) && Clock(h) <= now < lo + window
    ensures SendsIn(h, lo, hi) <= Live(ChargeTimes(h), now, window)
  {
    if h != [] {
      SendsAreLive(Front(h), lo, hi, now, window);
      if Charges(Last(h)) { LiveMore(ChargeTimes(Front(h)), Last(h).now, now, window); }
    }
  }

  /** Wherever a window of the burst length starts, at most `maxImmediate` alerts are sent in it. */
  lemma {:induction false} BurstBudget(cfg: Config, h: History, lo: nat)
    requires Chronological(h) && Lawful(cfg, h) && BudgetCountFits(cfg, h)
    ensures SendsIn(h, lo, lo + cfg.burstWindow) <= cfg.maxImmediate
  {
    if h != [] {
      BurstBudget(cfg, Front(h), lo);
      if Last(h).Judged? && Last(h).decision.SendNow? && lo <= Last(h).now < lo + cfg.burstWindow {
        SendsAreLive(Front(h), lo, lo + cfg.burstWindow, Last(h).now, cfg.burstWindow);
      }
    }
  }

  // ----- Every alert let through is accounted for -----

  function Copies(x: Alert, s: seq<Alert>): nat {
    if s == [] then 0 else Copies(x, Front(s)) + if Last(s) == x then 1 else 0
  }

  /** Entries that answer `d` for the alert `x`. */
  function Answers(h: History, x: Alert, d: Decision): nat {
    if h == [] then 0
    else Answers(Front(h), x, d) + if Last(h).Judged? && Last(h).alert == x && Last(h).decision == d then 1 else 0
  }

  function DigestedCopies(h: History, x: Alert): nat {
    if h == [] then 0
    else DigestedCopies(Front(h), x) + if Last(h).Drained? then Copies(x, Last(h).alerts) else 0
  }

  /** Coalesced alerts that found the digest full and were dropped. */
  function DroppedCopies(cfg: Config, h: History, x: Alert): nat {
    if h == [] then 0
    else if Last(h) == Judged(x, Clock(h), Coalesced) && |Pending(cfg, Front(h))| >= cfg.digestMax
    then DroppedCopies(cfg, Front(h), x) + 1
    else DroppedCopies(cfg, Front(h), x)
  }

  lemma CopiesMore(x: Alert, s: seq<Alert>, last: Alert)
    ensures Copies(x, s + [last]) == Copies(x, s) + if last == x then 1 else 0
  {
    assert Front(s + [last]) == s;
  }

  /** A coalesced alert is drained in exactly one digest, still pending, or dropped because
      the digest was full; the last happens exactly when `digestMax` alerts are waiting. */
  lemma {:induction false} CoalescedAccounted(cfg: Config, h: History, x: Alert)
    requires Lawful(cfg, h)
    ensures Answers(h, x, Coalesced)
         == DigestedCopies(h, x) + Copies(x, Pending(cfg, h)) + DroppedCopies(cfg, h, x)
  {
    if h != [] {
      var past, e := Front(h), Last(h);
      assert h == past + [e];
      CoalescedAccounted(cfg, past, x);
      if e.Judged? && e.decision.Coalesced? {
        PendingGrows(cfg, past, e);
        CopiesMore(x, Pending(cfg, past), e.alert);
      } else if !e.Drained? {
        PendingStays(cfg, past, e);
      }
    }
  }

  // ----- The limiter object -----

  class Limiter {
    const cfg: Config
    var seen: map<string, nat>
    var recentSends: seq<nat>
    var pendingDigest: seq<Alert>
    ghost var history: History

    ghost function Current(): State
      reads this
    {
      State(seen, recentSends, pendingDigest)
    }

    ghost predicate Valid()
      reads this
    {
      Tracks(cfg, history, Current())
    }

    /** The history is what the object did, whatever the order of the times in it. */
    ghost predicate Follows()
      reads this
    {
      Answered(cfg, history) && Current() == StateAfter(cfg, history)
    }

    constructor (cfg: Config)
      ensures Valid() && Follows() && this.cfg == cfg && history == [] && Current() == Initial
    {
      this.cfg := cfg;
      seen, recentSends, pendingDigest, history := map[], [], [], [];
    }

    /** Drops dedupe entries and burst timestamps that have aged out. */
    method ExpireOld(now: nat)
      modifies this`seen, this`recentSends
      ensures Current() == Expire(cfg, old(Current()), now)
      ensures forall id :: id in seen <==> id in old(seen) && Since(now, old(seen)[id]) < cfg.dedupeWindow
      ensures forall id :: id in seen ==> seen[id] == old(seen)[id]
    {
      seen := map id | id in seen && Since(now, seen[id]) < cfg.dedupeWindow :: seen[id];
      while recentSends != []
        invariant seen == Expire(cfg, old(Current()), now).seen
        invariant DropAged(recentSends, now, cfg.burstWindow) == DropAged(old(recentSends), now, cfg.burstWindow)
        decreases |recentSends|
      {
        if Since(now, recentSends[0]) >= cfg.burstWindow {
          recentSends := recentSends[1..];
        } else {
          break;
        }
      }
    }

    /** Admits one alert. For as long as the clock has not run backwards, the answer is the one
        the whole history calls for. */
    method AdmitAlert(alert: Alert, now: nat) returns (d: Decision)
      modifies this
      ensures (Current(), d) == Admit(cfg, old(Current()), alert, now)
      ensures history == old(history) + [Judged(alert, now, d)]
      ensures old(Valid()) && Clock(old(history)) <= now ==> Valid() && d == Judge(cfg, old(history), alert, now)
      ensures old(Follows()) ==> Follows()
    {
      ghost var s := Current();
      ExpireOld(now);
      d := Decide(alert, now);
      if Tracks(cfg, history, s) && Clock(history) <= now {
        AdmitRefines(cfg, history, s, alert, now);
      }
      history := history + [Judged(alert, now, d)];
      AnsweredMore(cfg, old(history), Judged(alert, now, d));
    }

    method Decide(alert: Alert, now: nat) returns (d: Decision)
      modifies this`seen, this`recentSends, this`pendingDigest
      ensures forall s :: old(Current()) == Expire(cfg, s, now) ==> (Current(), d) == Admit(cfg, s, alert, now)
    {
      if alert.alertId != "" {
        if alert.alertId in seen && Since(now, seen[alert.alertId]) < cfg.dedupeWindow {
          return Deduped;
        }
        seen := seen[alert.alertId := now];
      }
      if AsU32(|recentSends|) < cfg.maxImmediate {
        recentSends := recentSends + [now];
        d := SendNow;
      } else {
        if |pendingDigest| < cfg.digestMax {
          pendingDigest := pendingDigest + [alert];
        }
        d := Coalesced;
      }
    }

    /** Charges a digest to the burst budget, then takes what it holds. */
    method ChargeAndDrain(now: nat) returns (alerts: seq<Alert>)
      modifies this
      ensures alerts == old(pendingDigest) && pendingDigest == []
      ensures seen == old(seen) && recentSends == old(recentSends) + [now]
      ensures history == old(history) + [Charged(now)] + [Drained(alerts)]
      ensures old(Valid()) && Clock(old(history)) <= now ==> Valid() && alerts == Pending(cfg, old(history))
      ensures old(Follows()) ==> Follows()
    {
      if Tracks(cfg, history, Current()) && Clock(history) <= now {
        ChargeRefines(cfg, history, Current(), now);
        DrainRefines(cfg, history + [Charged(now)], Current().(recentSends := recentSends + [now]));
      }
      recentSends := recentSends + [now];
      alerts := pendingDigest;
      pendingDigest := [];
      history := history + [Charged(now)] + [Drained(alerts)];
      AnsweredMore(cfg, old(history), Charged(now));
      AnsweredMore(cfg, old(history) + [Charged(now)], Drained(alerts));
    }
  }
}

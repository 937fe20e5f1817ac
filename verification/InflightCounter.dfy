/** The lock-free in-flight counter (crates/bulwark-cluster/src/lib.rs): any number of
    `complete_inflight` compare-exchange loops interleaved with the increments of
    `dequeue`. All accesses are relaxed, so a load may return an older value; what
    coherence guarantees is one modification order, and that a thread never reads
    backwards in it. */
module InflightCounter {
  import opened Base

  datatype Op = Increment | Decrement

  /** The counter's intended sequential meaning: the decrement saturates at zero. */
  function Apply(v: u32, op: Op): u32 {
    match op
    case Increment => AsU32(v + 1)
    case Decrement => if v > 0 then v - 1 else 0
  }

  function ApplyAll(ops: seq<Op>): u32 {
    if ops == [] then 0 else Apply(ApplyAll(Front(ops)), Last(ops))
  }

  /** Where one call of `complete_inflight` stands; `index` is its place in the modification order. */
  datatype Call =
    | Looping(expected: u32, index: nat)  // about to try `compare_exchange_weak`
    | Exchanged(index: nat)               // returned after the exchange that made modification `index`
    | FoundZero(index: nat)               // returned because it read zero

  /** `values` is the modification order, oldest first; `ops[k]` led from `values[k]` to the next. */
  datatype State = State(values: seq<u32>, ops: seq<Op>, calls: map<nat, Call>)

  const Initial: State := State([0], [], map[])

  datatype Event =
    | Deliver                           // dequeue's `fetch_add(1)`
    | Load(call: nat, index: nat)       // the first load of a new call
    | Exchange(call: nat)               // a compare-exchange that succeeds
    | Fail(call: nat, index: nat)       // one that fails, for a reason or spuriously

  function Observed(v: u32, index: nat): Call {
    if v == 0 then FoundZero(index) else Looping(v, index)
  }

  predicate Enabled(s: State, e: Event) {
    match e
    case Deliver => s.values != []
    case Load(c, i) => c !in s.calls && i < |s.values|
    case Exchange(c) => s.values != [] && c in s.calls && s.calls[c].Looping? && s.calls[c].expected == Last(s.values)
    case Fail(c, i) => c in s.calls && s.calls[c].Looping? && s.calls[c].index <= i < |s.values|
  }

  function Step(s: State, e: Event): State
    requires Enabled(s, e)
  {
    match e
    case Deliver => s.(values := s.values + [Apply(Last(s.values), Increment)], ops := s.ops + [Increment])
    case Load(c, i) => s.(calls := s.calls[c := Observed(s.values[i], i)])
    case Exchange(c) =>
      var expected := s.calls[c].expected;
      State(s.values + [if expected > 0 then expected - 1 else 0xFFFF_FFFF], s.ops + [Decrement],
            s.calls[c := Exchanged(|s.values|)])
    case Fail(c, i) => s.(calls := s.calls[c := Observed(s.values[i], i)])
  }

  /** The state after a history, if every event of it was possible in turn. */
  function After(t: seq<Event>): Option<State> {
    if t == [] then Some(Initial)
    else
      var before := After(Front(t));
      if before.Some? && Enabled(before.value, Last(t)) then Some(Step(before.value, Last(t))) else None
  }

  // ----- Every finished call is one saturating decrement -----

  function ExchangedCalls(s: State): set<nat> {
    set c | c in s.calls && s.calls[c].Exchanged?
  }

  function ZeroCalls(s: State, k: nat): set<nat> {
    set c | c in s.calls && s.calls[c] == FoundZero(k)
  }

  function ZeroCallsBelow(s: State, k: nat): set<nat> {
    set c | c in s.calls && s.calls[c].FoundZero? && s.calls[c].index < k
  }

  function FinishedCalls(s: State): set<nat> {
    set c | c in s.calls && !s.calls[c].Looping?
  }

  function Decrements(n: nat): seq<Op> {
    if n == 0 then [] else Decrements(n - 1) + [Decrement]
  }

  /** One sequential order of the whole run: the modifications, and after the `k`-th of them
      the calls that read the zero it left. */
  function Linearized(s: State, k: nat): seq<Op>
    requires k <= |s.ops|
  {
    if k == 0 then Decrements(|ZeroCalls(s, 0)|)
    else Linearized(s, k - 1) + [s.ops[k - 1]] + Decrements(|ZeroCalls(s, k)|)
  }

  function Count(op: Op, ops: seq<Op>): nat {
    if ops == [] then 0 else Count(op, Front(ops)) + if Last(ops) == op then 1 else 0
  }

  /** The modification order is what its operations compute, and no decrement starts at zero. */
  ghost predicate OrderCoherent(values: seq<u32>, ops: seq<Op>) {
    && |values| == |ops| + 1 && values[0] == 0
    && (forall k :: 0 <= k < |ops| ==> values[k + 1] == Apply(values[k], ops[k]))
    && (forall k :: 0 <= k < |ops| && ops[k] == Decrement ==> values[k] > 0)
  }

  /** What a call has read is what stands at its place in the modification order. */
  ghost predicate CallCoherent(values: seq<u32>, ops: seq<Op>, c: Call) {
    match c
    case Looping(v, i) => i < |values| && v == values[i] && v > 0
    case Exchanged(i) => 0 < i <= |ops| && ops[i - 1] == Decrement
    case FoundZero(i) => i < |values| && values[i] == 0
  }

  /** No modification is the exchange of two calls. */
  ghost predicate ExchangesApart(calls: map<nat, Call>) {
    forall c, d :: c in calls && d in calls && c != d && calls[c].Exchanged? && calls[d].Exchanged? ==>
      calls[c].index != calls[d].index
  }

  ghost predicate Coherent(s: State) {
    && OrderCoherent(s.values, s.ops)
    && (forall c :: c in s.calls ==> CallCoherent(s.values, s.ops, s.calls[c]))
    && ExchangesApart(s.calls)
    && Count(Decrement, s.ops) == |ExchangedCalls(s)|
  }

  lemma CountMore(op: Op, ops: seq<Op>, last: Op)
    ensures Count(op, ops + [last]) == Count(op, ops) + if last == op then 1 else 0
  {
    assert Front(ops + [last]) == ops;
  }

  lemma OrderGrows(values: seq<u32>, ops: seq<Op>, op: Op)
    requires OrderCoherent(values, ops) && (op == Decrement ==> Last(values) > 0)
    ensures OrderCoherent(values + [Apply(Last(values), op)], ops + [op])
  {
  }

  lemma CallsKeep(s: State, v: u32, op: Op)
    requires forall c :: c in s.calls ==> CallCoherent(s.values, s.ops, s.calls[c])
    ensures forall c :: c in s.calls ==> CallCoherent(s.values + [v], s.ops + [op], s.calls[c])
  {
  }

  lemma DeliverCoherent(s: State)
    requires Coherent(s)
    ensures Coherent(Step(s, Deliver))
  {
    OrderGrows(s.values, s.ops, Increment);
    CallsKeep(s, Apply(Last(s.values), Increment), Increment);
    CountMore(Decrement, s.ops, Increment);
    assert ExchangedCalls(Step(s, Deliver)) == ExchangedCalls(s);
  }

  lemma ExchangeCoherent(s: State, c: nat)
    requires Coherent(s) && Enabled(s, Exchange(c))
    ensures Coherent(Step(s, Exchange(c)))
  {
    assert CallCoherent(s.values, s.ops, s.calls[c]);
    OrderGrows(s.values, s.ops, Decrement);
    CallsKeep(s, Apply(Last(s.values), Decrement), Decrement);
    CountMore(Decrement, s.ops, Decrement);
    assert ExchangedCalls(Step(s, Exchange(c))) == ExchangedCalls(s) + {c};
  }

  lemma ReadCoherent(s: State, c: nat, i: nat)
    requires Coherent(s) && i < |s.values| && (c in s.calls ==> s.calls[c].Looping?)
    ensures Coherent(s.(calls := s.calls[c := Observed(s.values[i], i)]))
  {
    assert ExchangedCalls(s.(calls := s.calls[c := Observed(s.values[i], i)])) == ExchangedCalls(s);
  }

  lemma StepCoherent(s: State, e: Event)
    requires Coherent(s) && Enabled(s, e)
    ensures Coherent(Step(s, e))
  {
    match e
    case Deliver => DeliverCoherent(s);
    case Load(c, i) => ReadCoherent(s, c, i);
    case Exchange(c) => ExchangeCoherent(s, c);
    case Fail(c, i) => ReadCoherent(s, c, i);
  }

  lemma {:induction false} AlwaysCoherent(t: seq<Event>)
    requires After(t).Some?
    ensures Coherent(After(t).value)
  {
    if t != [] {
      AlwaysCoherent(Front(t));
      StepCoherent(After(Front(t)).value, Last(t));
    }
  }

  /** The counter never wraps below zero and moves by one at a time. */
  lemma NeverWrapsDown(t: seq<Event>, k: nat)
    requires After(t).Some? && k + 1 < |After(t).value.values|
    ensures var v, v' := After(t).value.values[k], After(t).value.values[k + 1];
            v' == Apply(v, Increment) || (v > 0 && v' == v - 1)
  {
    AlwaysCoherent(t);
    assert After(t).value.ops[k].Increment? || After(t).value.ops[k].Decrement?;
  }

  lemma {:induction false} ApplyAllConcat(a: seq<Op>, b: seq<Op>)
    requires ApplyAll(a) == 0 && (forall i :: 0 <= i < |b| ==> b[i] == Decrement)
    ensures ApplyAll(a + b) == 0
  {
    if b == [] {
      assert a + b == a;
    } else {
      ApplyAllConcat(a, Front(b));
      assert Front(a + b) == a + Front(b);
    }
  }

  lemma {:induction false} DecrementsAre(n: nat)
    ensures |Decrements(n)| == n && forall i :: 0 <= i < n ==> Decrements(n)[i] == Decrement
    ensures Count(Decrement, Decrements(n)) == n && Count(Increment, Decrements(n)) == 0
  {
    if n > 0 {
      DecrementsAre(n - 1);
      assert Front(Decrements(n)) == Decrements(n - 1);
    }
  }

  lemma {:induction false} CountConcat(op: Op, a: seq<Op>, b: seq<Op>)
    ensures Count(op, a + b) == Count(op, a) + Count(op, b)
  {
    if b == [] {
      assert a + b == a;
    } else {
      CountConcat(op, a, Front(b));
      assert Front(a + b) == a + Front(b);
    }
  }

  /** The zero-reading calls after modification `k` change nothing. */
  lemma IdleDecrements(s: State, k: nat, ops: seq<Op>)
    requires Coherent(s) && k <= |s.ops| && ApplyAll(ops) == s.values[k]
    ensures ApplyAll(ops + Decrements(|ZeroCalls(s, k)|)) == s.values[k]
  {
    var n := |ZeroCalls(s, k)|;
    DecrementsAre(n);
    if n > 0 {
      var c :| c in ZeroCalls(s, k);
      ApplyAllConcat(ops, Decrements(n));
    } else {
      assert ops + [] == ops;
    }
  }

  lemma {:induction false} LinearizedValue(s: State, k: nat)
    requires Coherent(s) && k <= |s.ops|
    ensures ApplyAll(Linearized(s, k)) == s.values[k]
  {
    if k == 0 {
      IdleDecrements(s, 0, []);
      assert [] + Decrements(|ZeroCalls(s, 0)|) == Linearized(s, 0);
    } else {
      LinearizedValue(s, k - 1);
      var before := Linearized(s, k - 1);
      assert Front(before + [s.ops[k - 1]]) == before;
      IdleDecrements(s, k, before + [s.ops[k - 1]]);
    }
  }

  lemma ZeroCallsSplit(s: State, k: nat)
    ensures |ZeroCallsBelow(s, k + 1)| == |ZeroCallsBelow(s, k)| + |ZeroCalls(s, k)|
  {
    assert ZeroCallsBelow(s, k + 1) == ZeroCallsBelow(s, k) + ZeroCalls(s, k);
    assert ZeroCallsBelow(s, k) !! ZeroCalls(s, k);
  }

  lemma {:induction false} LinearizedCounts(s: State, k: nat)
    requires k <= |s.ops|
    ensures Count(Decrement, Linearized(s, k)) == Count(Decrement, s.ops[..k]) + |ZeroCallsBelow(s, k + 1)|
    ensures Count(Increment, Linearized(s, k)) == Count(Increment, s.ops[..k])
  {
    ZeroCallsSplit(s, k);
    DecrementsAre(|ZeroCalls(s, k)|);
    if k == 0 {
      assert ZeroCallsBelow(s, 0) == {};
    } else {
      LinearizedCounts(s, k - 1);
      var before, op := Linearized(s, k - 1), s.ops[k - 1];
      assert s.ops[..k] == s.ops[..k - 1] + [op];
      CountMore(Decrement, before, op);
      CountMore(Increment, before, op);
      CountMore(Decrement, s.ops[..k - 1], op);
      CountMore(Increment, s.ops[..k - 1], op);
      CountConcat(Decrement, before + [op], Decrements(|ZeroCalls(s, k)|));
      CountConcat(Increment, before + [op], Decrements(|ZeroCalls(s, k)|));
    }
  }

  /** Under every interleaving the run is equivalent to a sequence of increments and
      saturating decrements that ends in the counter's value and has exactly one decrement
      for each finished call and one increment for each delivery. */
  lemma EachCallIsOneSaturatingDecrement(t: seq<Event>)
    requires After(t).Some?
    ensures var s := After(t).value;
            var run := Linearized(s, |s.ops|);
            && s.values != []
            && ApplyAll(run) == Last(s.values)
            && Count(Decrement, run) == |FinishedCalls(s)|
            && Count(Increment, run) == Deliveries(t)
  {
    AlwaysCoherent(t);
    var s := After(t).value;
    LinearizedValue(s, |s.ops|);
    LinearizedCounts(s, |s.ops|);
    assert s.ops[..|s.ops|] == s.ops;
    assert FinishedCalls(s) == ExchangedCalls(s) + ZeroCallsBelow(s, |s.ops| + 1);
    assert ExchangedCalls(s) !! ZeroCallsBelow(s, |s.ops| + 1);
    IncrementsAreDeliveries(t);
  }

  // ----- Where each operation stands in that sequence -----

  lemma {:induction false} LinearizedPrefix(s: State, k: nat, m: nat)
    requires k <= m <= |s.ops|
    ensures Linearized(s, k) <= Linearized(s, m)
  {
    if k < m { LinearizedPrefix(s, k, m - 1); }
  }

  /** The place of modification `k`: behind everything up to the one before. */
  function Place(s: State, k: nat): nat
    requires 0 < k <= |s.ops|
  {
    |Linearized(s, k - 1)|
  }

  /** Modification `k` stands at its place, applied to the value it found. */
  ghost predicate ModificationInPlace(s: State, k: nat)
    requires Coherent(s) && 0 < k <= |s.ops|
  {
    var run := Linearized(s, |s.ops|);
    && Place(s, k) < |run| && run[Place(s, k)] == s.ops[k - 1] && ApplyAll(run[..Place(s, k)]) == s.values[k - 1]
    && (k > 1 ==> Place(s, k - 1) < Place(s, k))
  }

  /** Where the decrements of the calls begin that read the zero left by modification `k`. */
  function ZeroPlace(s: State, k: nat): nat
    requires k <= |s.ops|
  {
    if k == 0 then 0 else Place(s, k) + 1
  }

  /** The `j`-th of them stands right behind the modification and finds the zero it read. */
  ghost predicate ZeroReadInPlace(s: State, k: nat, j: nat)
    requires k <= |s.ops|
  {
    var run := Linearized(s, |s.ops|);
    ZeroPlace(s, k) + j < |run| && run[ZeroPlace(s, k) + j] == Decrement && ApplyAll(run[..ZeroPlace(s, k) + j]) == 0
  }

  /** A call that exchanged has a modification of its own: its decrement, of a value above zero. */
  ghost predicate ExchangeInPlace(s: State, c: nat)
    requires Coherent(s) && c in s.calls && s.calls[c].Exchanged?
  {
    var k := s.calls[c].index;
    && 0 < k <= |s.ops| && s.ops[k - 1] == Decrement && s.values[k - 1] > 0
    && forall d :: d in s.calls && d != c && s.calls[d].Exchanged? ==> s.calls[d].index != k
  }

  lemma StandsIn(run: seq<Op>, before: seq<Op>, middle: seq<Op>, after: seq<Op>, j: nat)
    requires before + middle + after <= run && j < |middle|
    ensures |before| + j < |run| && run[|before| + j] == middle[j] && run[..|before| + j] == before + middle[..j]
  {
    var whole := before + middle + after;
    assert run[..|whole|] == whole;
    assert run[..|before| + j] == whole[..|before| + j];
  }

  lemma ModificationStands(s: State, k: nat)
    requires Coherent(s) && 0 < k <= |s.ops|
    ensures ModificationInPlace(s, k)
  {
    var before, op, after := Linearized(s, k - 1), [s.ops[k - 1]], Decrements(|ZeroCalls(s, k)|);
    LinearizedPrefix(s, k, |s.ops|);
    StandsIn(Linearized(s, |s.ops|), before, op, after, 0);
    LinearizedValue(s, k - 1);
    assert op[..0] == [] && before + [] == before;
  }

  /** Everything up to modification `k`, without the calls that read what it left. */
  function Through(s: State, k: nat): seq<Op>
    requires k <= |s.ops|
  {
    if k == 0 then [] else Linearized(s, k - 1) + [s.ops[k - 1]]
  }

  lemma LinearizedAt(s: State, k: nat)
    requires Coherent(s) && k <= |s.ops|
    ensures Linearized(s, k) == Through(s, k) + Decrements(|ZeroCalls(s, k)|)
    ensures |Through(s, k)| == ZeroPlace(s, k) && ApplyAll(Through(s, k)) == s.values[k]
  {
    if k > 0 {
      LinearizedValue(s, k - 1);
      assert Front(Through(s, k)) == Linearized(s, k - 1);
      assert s.values[(k - 1) + 1] == Apply(s.values[k - 1], s.ops[k - 1]);
    }
  }

  lemma ZeroInBlock(run: seq<Op>, before: seq<Op>, n: nat, j: nat)
    requires before + Decrements(n) <= run && ApplyAll(before) == 0 && j < n
    ensures |before| + j < |run| && run[|before| + j] == Decrement && ApplyAll(run[..|before| + j]) == 0
  {
    DecrementsAre(n);
    assert before + Decrements(n) + [] == before + Decrements(n);
    StandsIn(run, before, Decrements(n), [], j);
    ApplyAllConcat(before, Decrements(n)[..j]);
  }

  lemma ZeroReadStands(s: State, k: nat, j: nat)
    requires Coherent(s) && k <= |s.ops| && s.values[k] == 0 && j < |ZeroCalls(s, k)|
    ensures ZeroReadInPlace(s, k, j)
  {
    LinearizedPrefix(s, k, |s.ops|);
    LinearizedAt(s, k);
    ZeroInBlock(Linearized(s, |s.ops|), Through(s, k), |ZeroCalls(s, k)|, j);
  }

  lemma ExchangeStands(s: State, c: nat)
    requires Coherent(s) && c in s.calls && s.calls[c].Exchanged?
    ensures ExchangeInPlace(s, c)
  {
    assert CallCoherent(s.values, s.ops, s.calls[c]);
  }

  /** In that sequence every modification stands in its order and finds its own value; each call
      that exchanged owns one of them; and each call that read a zero has its decrement right
      behind the modification that left the zero. */
  lemma EveryCallStandsWhereItRead(t: seq<Event>)
    requires After(t).Some?
    ensures var s := After(t).value;
            && Coherent(s)
            && (forall k :: 0 < k <= |s.ops| ==> ModificationInPlace(s, k))
            && (forall c :: c in s.calls && s.calls[c].Exchanged? ==> ExchangeInPlace(s, c))
            && (forall c, j :: c in s.calls && s.calls[c].FoundZero? && 0 <= j < |ZeroCalls(s, s.calls[c].index)| ==>
                  s.calls[c].index <= |s.ops| && ZeroReadInPlace(s, s.calls[c].index, j))
  {
    AlwaysCoherent(t);
    var s := After(t).value;
    forall k | 0 < k <= |s.ops| ensures ModificationInPlace(s, k) {
      ModificationStands(s, k);
    }
    forall c | c in s.calls && s.calls[c].Exchanged? ensures ExchangeInPlace(s, c) {
      ExchangeStands(s, c);
    }
    forall c, j | c in s.calls && s.calls[c].FoundZero? && 0 <= j < |ZeroCalls(s, s.calls[c].index)|
      ensures s.calls[c].index <= |s.ops| && ZeroReadInPlace(s, s.calls[c].index, j)
    {
      assert CallCoherent(s.values, s.ops, s.calls[c]);
      ZeroReadStands(s, s.calls[c].index, j);
    }
  }

  function Deliveries(t: seq<Event>): nat {
    if t == [] then 0 else Deliveries(Front(t)) + if Last(t).Deliver? then 1 else 0
  }

  lemma {:induction false} IncrementsAreDeliveries(t: seq<Event>)
    requires After(t).Some?
    ensures Count(Increment, After(t).value.ops) == Deliveries(t)
  {
    if t != [] {
      IncrementsAreDeliveries(Front(t));
      var ops := After(Front(t)).value.ops;
      CountMore(Increment, ops, Increment);
      CountMore(Increment, ops, Decrement);
    }
  }

  // ----- The balance of the counter -----

  /** Increments that found the counter at its maximum. */
  function Overflows(t: seq<Event>): nat
    requires After(t).Some?
  {
    if t == [] then 0
    else
      Overflows(Front(t)) + if Last(t).Deliver? && AtMaximum(Last(After(Front(t)).value.values)) then 1 else 0
  }

  predicate AtMaximum(v: u32) {
    v == U32_RANGE - 1
  }

  /** What one event does to the counter, to its overflows and to the decrements made. */
  ghost predicate Moves(e: Event, v: u32, v': u32, overflows: int, decrements: int) {
    match e
    case Deliver =>
      decrements == 0 && if AtMaximum(v) then v' == 0 && overflows == 1 else v' == v + 1 && overflows == 0
    case Exchange(_) => v > 0 && v' == v - 1 && overflows == 0 && decrements == 1
    case Load(_, _) => v' == v && overflows == 0 && decrements == 0
    case Fail(_, _) => v' == v && overflows == 0 && decrements == 0
  }

  lemma StepMoves(s: State, e: Event)
    requires Coherent(s) && Enabled(s, e)
    ensures var s', v := Step(s, e), Last(s.values);
            && s'.values != []
            && Moves(e, v, Last(s'.values), if e.Deliver? && AtMaximum(v) then 1 else 0,
                     Count(Decrement, s'.ops) - Count(Decrement, s.ops))
  {
    if e.Deliver? {
      CountMore(Decrement, s.ops, Increment);
    } else if e.Exchange? {
      assert CallCoherent(s.values, s.ops, s.calls[e.call]);
      CountMore(Decrement, s.ops, Decrement);
    }
  }

  /** The counter after a run. */
  function Value(t: seq<Event>): u32
    requires After(t).Some?
  {
    AlwaysCoherent(t);
    Last(After(t).value.values)
  }

  lemma ValueStep(t: seq<Event>)
    requires t != [] && After(t).Some?
    ensures After(Front(t)).Some?
    ensures Moves(Last(t), Value(Front(t)), Value(t), Overflows(t) - Overflows(Front(t)),
                  Count(Decrement, After(t).value.ops) - Count(Decrement, After(Front(t)).value.ops))
  {
    var s := After(Front(t)).value;
    assert After(t) == Some(Step(s, Last(t)));
    AlwaysCoherent(Front(t));
    StepMoves(s, Last(t));
  }

  lemma {:induction false} OperationsBalance(t: seq<Event>)
    requires After(t).Some?
    ensures Value(t) + Count(Decrement, After(t).value.ops) + Overflows(t) * U32_RANGE == Deliveries(t)
  {
    if t != [] {
      OperationsBalance(Front(t));
      ValueStep(t);
    }
  }

  /** In every run the counter is the deliveries less the calls that exchanged, but for the
      increments that overflowed; a call that read a zero took nothing off. */
  lemma CountBalance(t: seq<Event>)
    requires After(t).Some?
    ensures Value(t) + |ExchangedCalls(After(t).value)| + Overflows(t) * U32_RANGE == Deliveries(t)
  {
    AlwaysCoherent(t);
    OperationsBalance(t);
  }
}

/**
 The byte gauges of the cache backends and the process-wide totals they feed,
 under every interleaving of their atomic instructions.

 Each gauge adjustment is two atomics: one on the backend's own cell, then one
 on the process-wide total. `pending` holds the deltas between the two.
 */
module Gauges {
  import opened Prelude

  const I64_MAX: nat := 0x7FFF_FFFF_FFFF_FFFF

  /** One kind of gauge - index, in-flight or disk - across all backends. */
  datatype Counter = Counter(cells: map<nat, int>, total: int, pending: map<nat, int>)

  datatype Event =
    | AddCell(task: nat, backend: nat, delta: int)    // add_index, add_in_flight
    | SwapCell(task: nat, backend: nat, bytes: nat)   // set_disk
    | AddTotal(task: nat)
    | NewBackend(backend: nat)

  predicate Enabled(c: Counter, e: Event) {
    match e
    case AddCell(task, backend, _) => task !in c.pending && backend in c.cells
    case SwapCell(task, backend, _) => task !in c.pending && backend in c.cells
    case AddTotal(task) => task in c.pending
    case NewBackend(backend) => backend !in c.cells
  }

  function Apply(c: Counter, e: Event): Counter
    requires Enabled(c, e)
  {
    match e
    case AddCell(task, backend, delta) =>
      if delta == 0 then c
      else c.(cells := c.cells[backend := c.cells[backend] + delta], pending := c.pending[task := delta])
    case SwapCell(task, backend, bytes) =>
      var clamped := Min(bytes, I64_MAX);
      var previous := c.cells[backend];
      var delta := clamped - Min(previous, I64_MAX);
      var swapped := c.(cells := c.cells[backend := clamped]);
      if delta == 0 then swapped else swapped.(pending := c.pending[task := delta])
    case AddTotal(task) =>
      c.(total := c.total + c.pending[task], pending := c.pending - {task})
    case NewBackend(backend) =>
      c.(cells := c.cells[backend := 0])
  }

  // ---- sums over a finite map ----

  ghost function SumOf(m: map<nat, int>): int {
    if m == map[] then 0
    else
      var k :| k in m;
      m[k] + SumOf(m - {k})
  }

  lemma {:induction false} SumRemove(m: map<nat, int>, k: nat)
    requires k in m
    ensures SumOf(m) == m[k] + SumOf(m - {k})
    decreases |m|
  {
    var j :| j in m && SumOf(m) == m[j] + SumOf(m - {j});
    if j != k {
      SumRemove(m - {j}, k);
      SumRemove(m - {k}, j);
      assert m - {j} - {k} == m - {k} - {j};
    }
  }

  lemma SumWrite(m: map<nat, int>, k: nat, v: int)
    ensures SumOf(m[k := v]) == SumOf(m) + v - (if k in m then m[k] else 0)
  {
    SumRemove(m[k := v], k);
    assert m[k := v] - {k} == m - {k};
    if k in m {
      SumRemove(m, k);
    } else {
      assert m - {k} == m;
    }
  }

  // ---- conservation ----

  /** The total plus the deltas still on their way is the sum of the backends' own figures. */
  ghost predicate Conserved(c: Counter) {
    c.total + SumOf(c.pending) == SumOf(c.cells)
  }

  /** The disk gauge only ever holds swapped-in values. */
  predicate WithinI64(c: Counter) {
    forall b :: b in c.cells ==> c.cells[b] <= I64_MAX
  }

  lemma StepConserves(c: Counter, e: Event)
    requires Enabled(c, e) && Conserved(c)
    requires e.SwapCell? ==> WithinI64(c)
    ensures Conserved(Apply(c, e))
  {
    match e
    case AddCell(task, backend, delta) =>
      SumWrite(c.cells, backend, c.cells[backend] + delta);
      SumWrite(c.pending, task, delta);
    case SwapCell(task, backend, bytes) =>
      SumWrite(c.cells, backend, Min(bytes, I64_MAX));
      SumWrite(c.pending, task, Min(bytes, I64_MAX) - c.cells[backend]);
    case AddTotal(task) =>
      SumRemove(c.pending, task);
    case NewBackend(backend) =>
      SumWrite(c.cells, backend, 0);
  }

  ghost predicate IsRun(states: seq<Counter>, events: seq<Event>) {
    && |states| == |events| + 1
    && states[0] == Counter(map[], 0, map[])
    && forall i :: 0 <= i < |events| ==> Enabled(states[i], events[i]) && states[i + 1] == Apply(states[i], events[i])
  }

  /** The disk gauge of every run: nothing but swaps touches its cells. */
  lemma {:induction false} DiskGaugeConserved(states: seq<Counter>, events: seq<Event>, i: nat)
    requires IsRun(states, events) && i < |states|
    requires forall j :: 0 <= j < |events| ==> !events[j].AddCell?
    ensures Conserved(states[i]) && WithinI64(states[i])
    ensures states[i].pending == map[] ==> states[i].total == SumOf(states[i].cells)
  {
    if i > 0 {
      DiskGaugeConserved(states, events, i - 1);
      StepConserves(states[i - 1], events[i - 1]);
    }
  }

  predicate Swaps(e: Event, backend: nat) {
    e.SwapCell? && e.backend == backend
  }

  /** A backend's figure is what was last measured for it, capped at the largest 64-bit signed number. */
  lemma {:induction false} LastMeasureIsShown(states: seq<Counter>, events: seq<Event>, i: nat, to: nat)
    requires IsRun(states, events) && i < to < |states| && events[i].SwapCell?
    requires forall j :: i < j < to ==> !events[j].AddCell? && !Swaps(events[j], events[i].backend)
    ensures events[i].backend in states[to].cells
    ensures states[to].cells[events[i].backend] ==
      if events[i].bytes < 0x8000_0000_0000_0000 then events[i].bytes else 0x7FFF_FFFF_FFFF_FFFF
  {
    if i + 1 < to {
      LastMeasureIsShown(states, events, i, to - 1);
      assert Enabled(states[to - 1], events[to - 1]) && !Swaps(events[to - 1], events[i].backend);
    }
  }

  /** The additive gauges of every run. */
  lemma {:induction false} AddedGaugeConserved(states: seq<Counter>, events: seq<Event>, i: nat)
    requires IsRun(states, events) && i < |states|
    requires forall j :: 0 <= j < |events| ==> !events[j].SwapCell?
    ensures Conserved(states[i])
    ensures states[i].pending == map[] ==> states[i].total == SumOf(states[i].cells)
  {
    if i > 0 {
      AddedGaugeConserved(states, events, i - 1);
      StepConserves(states[i - 1], events[i - 1]);
    }
  }

  // ---- in-flight guards ----

  /** A guard charges its backend's in-flight gauge while it lives. */
  datatype Guard = Guard(backend: nat, bytes: nat)

  datatype GuardSys = GuardSys(counter: Counter, guards: map<nat, Guard>)

  datatype GuardEvent =
    | Acquire(task: nat, guard: nat, backend: nat, bytes: nat)   // InFlightGuard::new, up to its first atomic
    | Release(task: nat, guard: nat)                             // Drop, on whatever path the guard goes out of scope
    | Settle(task: nat)                                          // the second atomic of either
    | AddBackend(backend: nat)

  predicate GuardEnabled(s: GuardSys, e: GuardEvent) {
    match e
    case Acquire(task, guard, backend, bytes) =>
      guard !in s.guards && Enabled(s.counter, AddCell(task, backend, Min(bytes, I64_MAX)))
    case Release(task, guard) =>
      guard in s.guards && Enabled(s.counter, AddCell(task, s.guards[guard].backend, 0 - s.guards[guard].bytes))
    case Settle(task) => Enabled(s.counter, AddTotal(task))
    case AddBackend(backend) => Enabled(s.counter, NewBackend(backend))
  }

  function GuardApply(s: GuardSys, e: GuardEvent): GuardSys
    requires GuardEnabled(s, e)
  {
    match e
    case Acquire(task, guard, backend, bytes) =>
      var charged := Min(bytes, I64_MAX);
      GuardSys(Apply(s.counter, AddCell(task, backend, charged)), s.guards[guard := Guard(backend, charged)])
    case Release(task, guard) =>
      var g := s.guards[guard];
      GuardSys(Apply(s.counter, AddCell(task, g.backend, 0 - g.bytes)), s.guards - {guard})
    case Settle(task) => s.(counter := Apply(s.counter, AddTotal(task)))
    case AddBackend(backend) => s.(counter := Apply(s.counter, NewBackend(backend)))
  }

  function Charges(guards: map<nat, Guard>, backend: nat): map<nat, int> {
    map g | g in guards && guards[g].backend == backend :: guards[g].bytes
  }

  /** Every backend's in-flight gauge is the bytes of its live guards. */
  ghost predicate Charged(s: GuardSys) {
    && (forall g :: g in s.guards ==> s.guards[g].backend in s.counter.cells)
    && (forall b :: b in s.counter.cells ==> s.counter.cells[b] == SumOf(Charges(s.guards, b)))
  }

  lemma ChargesWrite(guards: map<nat, Guard>, id: nat, g: Guard, backend: nat)
    requires id !in guards
    ensures SumOf(Charges(guards[id := g], backend)) ==
      SumOf(Charges(guards, backend)) + (if g.backend == backend then g.bytes else 0)
  {
    if g.backend == backend {
      assert Charges(guards[id := g], backend) == Charges(guards, backend)[id := g.bytes];
      SumWrite(Charges(guards, backend), id, g.bytes);
    } else {
      assert Charges(guards[id := g], backend) == Charges(guards, backend);
    }
  }

  lemma AcquireKeeps(s: GuardSys, e: GuardEvent)
    requires e.Acquire? && GuardEnabled(s, e) && Charged(s)
    ensures Charged(GuardApply(s, e))
  {
    var t := GuardApply(s, e);
    forall b | b in t.counter.cells ensures t.counter.cells[b] == SumOf(Charges(t.guards, b)) {
      ChargesWrite(s.guards, e.guard, Guard(e.backend, Min(e.bytes, I64_MAX)), b);
    }
  }

  lemma ReleaseKeeps(s: GuardSys, e: GuardEvent)
    requires e.Release? && GuardEnabled(s, e) && Charged(s)
    ensures Charged(GuardApply(s, e))
  {
    var t := GuardApply(s, e);
    var g := s.guards[e.guard];
    assert t.guards[e.guard := g] == s.guards;
    forall b | b in t.counter.cells ensures t.counter.cells[b] == SumOf(Charges(t.guards, b)) {
      ChargesWrite(t.guards, e.guard, g, b);
    }
  }

  lemma OtherStepKeeps(s: GuardSys, e: GuardEvent)
    requires (e.AddBackend? || e.Settle?) && GuardEnabled(s, e) && Charged(s)
    ensures Charged(GuardApply(s, e))
  {
    if e.AddBackend? {
      assert Charges(s.guards, e.backend) == map[];
    }
  }

  /** Each guard event is one event of the counter below it. */
  function CounterEvent(s: GuardSys, e: GuardEvent): Event
    requires GuardEnabled(s, e)
  {
    match e
    case Acquire(task, guard, backend, bytes) => AddCell(task, backend, Min(bytes, I64_MAX))
    case Release(task, guard) => AddCell(task, s.guards[guard].backend, 0 - s.guards[guard].bytes)
    case Settle(task) => AddTotal(task)
    case AddBackend(backend) => NewBackend(backend)
  }

  lemma GuardStepKeeps(s: GuardSys, e: GuardEvent)
    requires GuardEnabled(s, e) && Charged(s) && Conserved(s.counter)
    ensures Charged(GuardApply(s, e)) && Conserved(GuardApply(s, e).counter)
  {
    StepConserves(s.counter, CounterEvent(s, e));
    assert GuardApply(s, e).counter == Apply(s.counter, CounterEvent(s, e));
    match e
    case Acquire(_, _, _, _) => AcquireKeeps(s, e);
    case Release(_, _) => ReleaseKeeps(s, e);
    case Settle(_) => OtherStepKeeps(s, e);
    case AddBackend(_) => OtherStepKeeps(s, e);
  }

  ghost predicate IsGuardRun(states: seq<GuardSys>, events: seq<GuardEvent>) {
    && |states| == |events| + 1
    && states[0] == GuardSys(Counter(map[], 0, map[]), map[])
    && forall i :: 0 <= i < |events| ==>
         GuardEnabled(states[i], events[i]) && states[i + 1] == GuardApply(states[i], events[i])
  }

  /**
   In every run a backend's in-flight gauge equals the bytes of its live guards - so it is zero once
   they are gone - and the process-wide total catches up when the last delta lands.
   */
  lemma {:induction false} InFlightEqualsLiveGuards(states: seq<GuardSys>, events: seq<GuardEvent>, i: nat)
    requires IsGuardRun(states, events) && i < |states|
    ensures Charged(states[i]) && Conserved(states[i].counter)
    ensures states[i].guards == map[] ==> forall b :: b in states[i].counter.cells ==> states[i].counter.cells[b] == 0
    ensures states[i].guards == map[] && states[i].counter.pending == map[] ==> states[i].counter.total == 0
  {
    if i > 0 {
      InFlightEqualsLiveGuards(states, events, i - 1);
      GuardStepKeeps(states[i - 1], events[i - 1]);
    }
    var s := states[i];
    if s.guards == map[] {
      forall b | b in s.counter.cells ensures s.counter.cells[b] == 0 {
        assert Charges(s.guards, b) == map[];
      }
      SumOfZeros(s.counter.cells);
    }
  }

  lemma {:induction false} SumOfZeros(m: map<nat, int>)
    requires forall k :: k in m ==> m[k] == 0
    ensures SumOf(m) == 0
    decreases |m|
  {
    if m != map[] {
      var k :| k in m;
      SumRemove(m, k);
      SumOfZeros(m - {k});
    }
  }
}

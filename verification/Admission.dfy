/**
 The read and write gates of the file cache: fetch-add, compare the old count
 with the limit, subtract on the way out - interleaved at every instruction.
 */
module Admission {
  import opened Prelude

  /** Between its fetch-add and its deferred subtract an operation is waiting at, past or turned away by the gate. */
  datatype Phase = Arrived | Inside | Rejected

  /** `count` is what the fetch-add returned. */
  datatype Operation = Operation(id: nat, count: nat, phase: Phase)

  /** Operations present, in the order they arrived. The counter is 32 bits wide and wraps. */
  datatype Gate = Gate(counter: nat, limit: nat, present: seq<Operation>)

  datatype Event = FetchAdd(id: nat) | Decide(at: nat) | FetchSub(at: nat)

  predicate Enabled(g: Gate, e: Event) {
    match e
    case FetchAdd(id) => forall i :: 0 <= i < |g.present| ==> g.present[i].id != id
    case Decide(at) => at < |g.present| && g.present[at].phase.Arrived?
    case FetchSub(at) => at < |g.present| && !g.present[at].phase.Arrived?
  }

  function Apply(g: Gate, e: Event): Gate
    requires Enabled(g, e)
  {
    match e
    case FetchAdd(id) =>
      g.(counter := (g.counter + 1) % U32_LIMIT, present := g.present + [Operation(id, g.counter, Arrived)])
    case Decide(at) =>
      var op := g.present[at];
      var over := g.limit > 0 && op.count >= g.limit;
      g.(present := g.present[at := op.(phase := if over then Rejected else Inside)])
    case FetchSub(at) =>
      g.(counter := (g.counter - 1) % U32_LIMIT, present := g.present[..at] + g.present[at + 1..])
  }

  /** How many of the operations are past the gate. */
  function InsideCount(ops: seq<Operation>): (n: nat)
    ensures n <= |ops|
  {
    if ops == [] then 0
    else InsideCount(ops[..|ops| - 1]) + if ops[|ops| - 1].phase.Inside? then 1 else 0
  }

  /**
   The counter counts the operations present, and an operation's own count is at least the number of
   earlier arrivals still present.
   */
  ghost predicate Inv(g: Gate) {
    && g.counter == |g.present| < U32_LIMIT
    && (forall i :: 0 <= i < |g.present| ==> i <= g.present[i].count)
    && (forall i :: 0 <= i < |g.present| && g.present[i].phase.Inside? ==> g.limit == 0 || g.present[i].count < g.limit)
  }

  lemma StepKeepsInv(g: Gate, e: Event)
    requires Inv(g) && Enabled(g, e)
    requires |Apply(g, e).present| < U32_LIMIT
    ensures Inv(Apply(g, e)) && Apply(g, e).limit == g.limit
  {
    var t := Apply(g, e);
    if e.FetchSub? {
      forall i | 0 <= i < |t.present|
        ensures t.present[i] == g.present[if i < e.at then i else i + 1]
      {
      }
    }
  }

  lemma {:induction false} InsideBound(ops: seq<Operation>, limit: nat)
    requires forall i :: 0 <= i < |ops| ==> i <= ops[i].count
    requires forall i :: 0 <= i < |ops| && ops[i].phase.Inside? ==> ops[i].count < limit
    ensures InsideCount(ops) <= limit
  {
    if ops != [] {
      if ops[|ops| - 1].phase.Inside? {
        // the latest of those inside arrived with all the others present
        assert InsideCount(ops) <= |ops|;
      } else {
        InsideBound(ops[..|ops| - 1], limit);
      }
    }
  }

  /** A run in which fewer than 2^32 operations are ever present at once. */
  ghost predicate IsRun(states: seq<Gate>, events: seq<Event>, limit: nat) {
    && |states| == |events| + 1
    && states[0] == Gate(0, limit, [])
    && (forall i :: 0 <= i < |events| ==> Enabled(states[i], events[i]) && states[i + 1] == Apply(states[i], events[i]))
    && (forall i :: 0 <= i < |states| ==> |states[i].present| < U32_LIMIT)
  }

  lemma {:induction false} RunInv(states: seq<Gate>, events: seq<Event>, limit: nat, i: nat)
    requires IsRun(states, events, limit) && i < |states|
    ensures Inv(states[i]) && states[i].limit == limit
  {
    if i > 0 {
      RunInv(states, events, limit, i - 1);
      StepKeepsInv(states[i - 1], events[i - 1]);
    }
  }

  /**
   In every interleaving no more operations are past the gate than a nonzero limit allows, the counter
   equals the operations present, and it is back at zero when the last one has left.
   */
  lemma GateHolds(states: seq<Gate>, events: seq<Event>, limit: nat, i: nat)
    requires IsRun(states, events, limit) && i < |states|
    ensures limit > 0 ==> InsideCount(states[i].present) <= limit
    ensures states[i].counter == |states[i].present|
    ensures states[i].present == [] ==> states[i].counter == 0
  {
    RunInv(states, events, limit, i);
    if limit > 0 {
      InsideBound(states[i].present, limit);
    }
  }

  /** An operation that finds fewer than `limit` others present is let through. */
  lemma GateIsNotStricter(states: seq<Gate>, events: seq<Event>, limit: nat, i: nat)
    requires IsRun(states, events, limit) && i < |events|
    requires events[i].FetchAdd? && (limit == 0 || |states[i].present| < limit)
    ensures var t := states[i + 1];
            var at := |states[i].present|;
            Enabled(t, Decide(at)) && Apply(t, Decide(at)).present[at].phase.Inside?
  {
    RunInv(states, events, limit, i);
  }
}

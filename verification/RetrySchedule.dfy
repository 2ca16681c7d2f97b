/**
 The renewal scan of the ACME task: which certificates are attempted, how
 failures back off, and that at most one scan runs at a time.

 Clock readings and the outcome of an order come from outside; they are
 recorded in a `Visit`, one per certificate per scan.
 */
module RetrySchedule {
  import opened Prelude
  import opened Text

  const U32_MAX: nat := 0xFFFF_FFFF

  datatype RetryState = RetryState(failures: nat, nextAttempt: int)

  type Retries = map<string, RetryState>

  /** Seconds to wait after that many failures. */
  function RetryDelay(failures: nat): nat {
    if failures <= 1 then 5 * 60
    else if failures == 2 then 15 * 60
    else if failures == 3 then 30 * 60
    else if failures == 4 then 60 * 60
    else 6 * 60 * 60
  }

  // ---- what a scan looks at ----

  datatype Item = Item(name: string, domains: seq<string>, dnsChallenge: bool, manual: bool)

  /**
   What the outside answered: the clock when it was looked at, whether the certificate is due, the
   order's outcome and when it failed.
   */
  datatype Outside = Outside(checkedAt: int, due: bool, issued: bool, failedAt: int)

  datatype Visit = Visit(key: string, skipped: bool, outside: Outside)

  function RetryKey(item: Item): string {
    item.name + "|" + Join(item.domains, ',')
  }

  /** The manual DNS challenge only runs in the first cycle. */
  function VisitOf(count: nat, item: Item, outside: Outside): Visit {
    Visit(RetryKey(item), item.dnsChallenge && item.manual && count > 0, outside)
  }

  // ---- one visit ----

  predicate BackingOff(retries: Retries, v: Visit) {
    v.key in retries && retries[v.key].nextAttempt > v.outside.checkedAt
  }

  /** Whether this visit starts an order. */
  predicate Starts(retries: Retries, v: Visit) {
    !BackingOff(retries, v) && !v.skipped && v.outside.due
  }

  function AfterVisit(retries: Retries, v: Visit): Retries {
    if BackingOff(retries, v) || v.skipped then retries
    else if !v.outside.due || v.outside.issued then retries - {v.key}
    else
      var failures := if v.key in retries then Min(retries[v.key].failures + 1, U32_MAX) else 1;
      retries[v.key := RetryState(failures, v.outside.failedAt + RetryDelay(failures))]
  }

  function AfterVisits(retries: Retries, visits: seq<Visit>): Retries {
    if visits == [] then retries
    else AfterVisit(AfterVisits(retries, visits[..|visits| - 1]), visits[|visits| - 1])
  }

  /** When the orders for `key` were started. */
  function StartTimes(retries: Retries, visits: seq<Visit>, key: string): seq<int> {
    if visits == [] then []
    else
      var v := visits[|visits| - 1];
      var before := StartTimes(retries, visits[..|visits| - 1], key);
      if v.key == key && Starts(AfterVisits(retries, visits[..|visits| - 1]), v) then before + [v.outside.checkedAt]
      else before
  }

  /** Whether visit `i` of a scan started an order. */
  ghost predicate StartedAt(retries: Retries, visits: seq<Visit>, i: nat, started: bool) {
    i < |visits| && started == Starts(AfterVisits(retries, visits[..i]), visits[i])
  }

  // ---- the scan loop ----

  class LetsEncryptTask {
    var retries: Retries

    /** The body of the scan loop. */
    method VisitItem(count: nat, item: Item, seen: Outside) returns (started: bool)
      modifies this
      ensures retries == AfterVisit(old(retries), VisitOf(count, item, seen))
      ensures started == Starts(old(retries), VisitOf(count, item, seen))
      ensures started <==>
        && (RetryKey(item) in old(retries) ==> old(retries)[RetryKey(item)].nextAttempt <= seen.checkedAt)
        && !(item.dnsChallenge && item.manual && count > 0) && seen.due
    {
      var key := RetryKey(item);
      if key in retries && retries[key].nextAttempt > seen.checkedAt {
        return false;
      }
      if item.dnsChallenge && item.manual && count > 0 {
        return false;
      }
      if !seen.due {
        retries := retries - {key};
        return false;
      }
      if seen.issued {
        retries := retries - {key};
      } else {
        var failures := if key in retries then Min(retries[key].failures + 1, U32_MAX) else 1;
        retries := retries[key := RetryState(failures, seen.failedAt + RetryDelay(failures))];
      }
      return true;
    }

    /** `do_update_certificates`: one visit per item, in order. */
    method DoUpdateCertificates(count: nat, items: seq<Item>, outside: seq<Outside>) returns (started: seq<bool>)
      requires |outside| == |items|
      modifies this
      ensures retries == AfterVisits(old(retries), Visits(count, items, outside))
      ensures |started| == |items|
      ensures var visits := Visits(count, items, outside);
              forall i :: 0 <= i < |items| ==> StartedAt(old(retries), visits, i, started[i])
    {
      started := [];
      ghost var visits := Visits(count, items, outside);
      for i := 0 to |items|
        invariant |started| == i
        invariant forall j :: 0 <= j < i ==> StartedAt(old(retries), visits, j, started[j])
        invariant retries == AfterVisits(old(retries), visits[..i])
      {
        assert visits[..i + 1][..i] == visits[..i];
        var start := VisitItem(count, items[i], outside[i]);
        assert StartedAt(old(retries), visits, i, start);
        started := started + [start];
      }
      assert visits[..|items|] == visits;
    }
  }

  function Visits(count: nat, items: seq<Item>, outside: seq<Outside>): (r: seq<Visit>)
    requires |outside| == |items|
    ensures |r| == |items|
    ensures forall i :: 0 <= i < |items| ==> r[i] == VisitOf(count, items[i], outside[i])
  {
    seq(|items|, i requires 0 <= i < |items| => VisitOf(count, items[i], outside[i]))
  }

  // ---- the bound on orders ----

  /** Visits one after the other on a monotone clock, none before `origin`. */
  predicate Chronological(visits: seq<Visit>, origin: int) {
    && (forall i :: 0 <= i < |visits| ==> origin <= visits[i].outside.checkedAt <= visits[i].outside.failedAt)
    && (forall i, j :: 0 <= i < j < |visits| ==> visits[i].outside.failedAt <= visits[j].outside.checkedAt)
  }

  /** Whenever the certificate is looked at it is due, and no order for it succeeds. */
  predicate KeepsFailing(visits: seq<Visit>, key: string) {
    forall i :: 0 <= i < |visits| && visits[i].key == key ==> visits[i].outside.due && !visits[i].outside.issued
  }

  /** Earliest start of order number `n` (counting from zero) after the first one. */
  function Offset(n: nat): nat {
    if n == 0 then 0 else Offset(n - 1) + RetryDelay(n)
  }

  lemma {:induction false} OffsetClosed(n: nat)
    requires n >= 4
    ensures Offset(n) == 6600 + 21600 * (n - 4)
  {
    if n == 4 {
      assert Offset(1) == 300 && Offset(2) == 1200 && Offset(3) == 3000;
    } else {
      OffsetClosed(n - 1);
    }
  }

  /** Five minutes, fifteen, half an hour and an hour lie between the first five orders. */
  lemma FirstOffsets()
    ensures Offset(0) == 0 && Offset(1) == 300 && Offset(2) == 1200 && Offset(3) == 3000 && Offset(4) == 6600
  {
    assert Offset(2) == Offset(1) + 900;
    assert Offset(4) == Offset(3) + 3600;
  }

  /** The entry counts the orders started so far and blocks the next one until its offset. */
  predicate BackedOff(r: Retries, key: string, starts: seq<int>, origin: int) {
    && (key in r <==> starts != [])
    && (key in r ==> r[key].failures == Min(|starts|, U32_MAX) && r[key].nextAttempt >= origin + Offset(|starts|))
    && (starts != [] ==> starts[|starts| - 1] >= origin + Offset(|starts| - 1))
  }

  lemma StartedBacksOff(r: Retries, v: Visit, starts: seq<int>, origin: int)
    requires BackedOff(r, v.key, starts, origin) && Starts(r, v)
    requires !v.outside.issued && origin <= v.outside.checkedAt <= v.outside.failedAt
    ensures BackedOff(AfterVisit(r, v), v.key, starts + [v.outside.checkedAt], origin)
  {
    DelayOf(|starts| + 1);
    assert v.outside.checkedAt >= origin + Offset(|starts|);
  }

  lemma SkippedStaysBackedOff(r: Retries, v: Visit, key: string, starts: seq<int>, origin: int)
    requires BackedOff(r, key, starts, origin)
    requires v.key != key || (!Starts(r, v) && v.outside.due)
    ensures BackedOff(AfterVisit(r, v), key, starts, origin)
  {
  }

  /** After `n` failed orders the entry says so and blocks the next one until its offset. */
  lemma {:induction false} BackoffInv(visits: seq<Visit>, key: string, origin: int)
    requires Chronological(visits, origin) && KeepsFailing(visits, key)
    ensures BackedOff(AfterVisits(map[], visits), key, StartTimes(map[], visits, key), origin)
  {
    if visits != [] {
      var front, v := visits[..|visits| - 1], visits[|visits| - 1];
      BackoffInv(front, key, origin);
      var r, starts := AfterVisits(map[], front), StartTimes(map[], front, key);
      if v.key == key && Starts(r, v) {
        StartedBacksOff(r, v, starts, origin);
      } else {
        SkippedStaysBackedOff(r, v, key, starts, origin);
      }
    }
  }

  /** Counting failures in 32 bits changes no delay. */
  lemma DelayOf(n: nat)
    ensures RetryDelay(Min(n, U32_MAX)) == RetryDelay(n)
  {
  }

  /**
   A certificate that keeps failing starts at most 5 + (t - 6600) / 21600 orders in the first t
   seconds (t at least 6600), however often the scan ticks and whatever else is scanned.
   */
  lemma RetryBound(visits: seq<Visit>, key: string, origin: int, t: nat)
    requires Chronological(visits, origin) && KeepsFailing(visits, key)
    requires t >= 6600 && forall i :: 0 <= i < |visits| ==> visits[i].outside.checkedAt <= origin + t
    ensures |StartTimes(map[], visits, key)| <= 5 + (t - 6600) / 21600
  {
    BackoffInv(visits, key, origin);
    var n := |StartTimes(map[], visits, key)|;
    if n >= 5 {
      StartsWithin(visits, key, origin + t);
      OffsetClosed(n - 1);
    }
  }

  lemma {:induction false} StartsWithin(visits: seq<Visit>, key: string, limit: int)
    requires forall i :: 0 <= i < |visits| ==> visits[i].outside.checkedAt <= limit
    ensures forall k :: 0 <= k < |StartTimes(map[], visits, key)| ==> StartTimes(map[], visits, key)[k] <= limit
  {
    if visits != [] {
      StartsWithin(visits[..|visits| - 1], key, limit);
    }
  }

  /** Scans that look exactly when each back-off ends, on orders that fail at once. */
  function PromptVisits(key: string, n: nat): (r: seq<Visit>)
    ensures |r| == n
    ensures forall i :: 0 <= i < n ==> r[i] == Visit(key, false, Outside(Offset(i), true, false, Offset(i)))
  {
    seq(n, i requires 0 <= i < n => Visit(key, false, Outside(Offset(i), true, false, Offset(i))))
  }

  lemma {:induction false} PromptStarts(key: string, n: nat)
    ensures |StartTimes(map[], PromptVisits(key, n), key)| == n
    ensures var r := AfterVisits(map[], PromptVisits(key, n));
            n > 0 ==> key in r && r[key] == RetryState(Min(n, U32_MAX), Offset(n))
    ensures n == 0 ==> key !in AfterVisits(map[], PromptVisits(key, n))
  {
    if n > 0 {
      PromptStarts(key, n - 1);
      var visits := PromptVisits(key, n);
      assert visits[..n - 1] == PromptVisits(key, n - 1);
      DelayOf(n);
    }
  }

  lemma {:induction false} OffsetMonotone(i: nat, j: nat)
    requires i <= j
    ensures Offset(i) <= Offset(j)
  {
    if i < j {
      OffsetMonotone(i, j - 1);
    }
  }

  /** The bound is attained for every t. */
  lemma RetryBoundIsTight(key: string, t: nat) returns (visits: seq<Visit>)
    requires t >= 6600
    ensures Chronological(visits, 0) && KeepsFailing(visits, key)
    ensures forall i :: 0 <= i < |visits| ==> visits[i].outside.checkedAt <= t
    ensures |StartTimes(map[], visits, key)| == 5 + (t - 6600) / 21600
  {
    var n := 5 + (t - 6600) / 21600;
    visits := PromptVisits(key, n);
    PromptStarts(key, n);
    OffsetClosed(n - 1);
    forall i, j | 0 <= i <= j < n ensures Offset(i) <= Offset(j) {
      OffsetMonotone(i, j);
    }
  }

  // ---- keys do not delay each other ----

  function OnlyKey(visits: seq<Visit>, key: string): seq<Visit> {
    if visits == [] then []
    else
      var v := visits[|visits| - 1];
      OnlyKey(visits[..|visits| - 1], key) + if v.key == key then [v] else []
  }

  function Entry(retries: Retries, key: string): Option<RetryState> {
    if key in retries then Some(retries[key]) else None
  }

  /** A visit reads and changes the entry of its own key only. */
  lemma VisitIsLocal(r1: Retries, r2: Retries, v: Visit, key: string)
    requires Entry(r1, key) == Entry(r2, key)
    ensures v.key != key ==> Entry(AfterVisit(r1, v), key) == Entry(r1, key)
    ensures v.key == key ==> Entry(AfterVisit(r1, v), key) == Entry(AfterVisit(r2, v), key)
    ensures v.key == key ==> (Starts(r1, v) <==> Starts(r2, v))
  {
  }

  /** The orders started for a key are those of the scans with every other key left out. */
  lemma {:induction false} KeysAreIndependent(retries: Retries, visits: seq<Visit>, key: string)
    ensures StartTimes(retries, visits, key) == StartTimes(retries, OnlyKey(visits, key), key)
    ensures Entry(AfterVisits(retries, visits), key) == Entry(AfterVisits(retries, OnlyKey(visits, key)), key)
  {
    if visits != [] {
      var front, v := visits[..|visits| - 1], visits[|visits| - 1];
      KeysAreIndependent(retries, front, key);
      var r1, r2 := AfterVisits(retries, front), AfterVisits(retries, OnlyKey(front, key));
      VisitIsLocal(r1, r2, v, key);
      var only := OnlyKey(visits, key);
      if v.key == key {
        assert only == OnlyKey(front, key) + [v];
        assert only[..|only| - 1] == OnlyKey(front, key);
      } else {
        assert only == OnlyKey(front, key);
      }
    }
  }

  /** What happens to a key from some point on depends on its own entry alone. */
  lemma {:induction false} EntryDecides(r1: Retries, r2: Retries, visits: seq<Visit>, key: string)
    requires Entry(r1, key) == Entry(r2, key)
    ensures StartTimes(r1, visits, key) == StartTimes(r2, visits, key)
    ensures Entry(AfterVisits(r1, visits), key) == Entry(AfterVisits(r2, visits), key)
  {
    if visits != [] {
      var front, v := visits[..|visits| - 1], visits[|visits| - 1];
      EntryDecides(r1, r2, front, key);
      VisitIsLocal(AfterVisits(r1, front), AfterVisits(r2, front), v, key);
      VisitIsLocal(AfterVisits(r2, front), AfterVisits(r1, front), v, key);
    }
  }

  /**
   An order that succeeds, or a certificate found not due, clears the key's record: whatever failed
   before, from then on its orders are those of a key that never failed.
   */
  lemma SuccessStartsAfresh(retries: Retries, visits: seq<Visit>, v: Visit, later: seq<Visit>)
    requires var r := AfterVisits(retries, visits); v.key in r ==> r[v.key].nextAttempt <= v.outside.checkedAt
    requires !v.skipped && (v.outside.issued || !v.outside.due)
    ensures var r := AfterVisits(retries, visits + [v]);
            v.key !in r && StartTimes(r, later, v.key) == StartTimes(map[], later, v.key)
  {
    var all := visits + [v];
    assert all[..|all| - 1] == visits;
    EntryDecides(AfterVisits(retries, all), map[], later, v.key);
  }

  /** Certificates of different names or domains never share a record. */
  lemma RetryKeysDistinct(a: Item, b: Item)
    requires '|' !in a.name && '|' !in b.name && a.domains != [] && b.domains != []
    requires forall i :: 0 <= i < |a.domains| ==> !Has(a.domains[i], ',')
    requires forall i :: 0 <= i < |b.domains| ==> !Has(b.domains[i], ',')
    requires RetryKey(a) == RetryKey(b)
    ensures a.name == b.name && a.domains == b.domains
  {
    NameBefore(a.name, Join(a.domains, ','));
    NameBefore(b.name, Join(b.domains, ','));
    SplitUndoesJoin(a.domains, ',');
    SplitUndoesJoin(b.domains, ',');
  }

  lemma NameBefore(name: string, rest: string)
    requires '|' !in name
    ensures Find(name + "|" + rest, '|') == Some(|name|)
    ensures (name + "|" + rest)[..|name|] == name && (name + "|" + rest)[|name| + 1..] == rest
  {
    var s := name + "|" + rest;
    assert s[|name|] == '|' && forall j :: 0 <= j < |name| ==> s[j] == name[j];
  }

  // ---- one scan at a time ----

  datatype Runner = Runner(running: bool, scanning: set<nat>)

  /** `execute` swaps the flag in; only the caller that found it clear scans, and clears it when done. */
  datatype Tick = Enter(task: nat) | Leave(task: nat)

  predicate TickEnabled(s: Runner, e: Tick) {
    match e
    case Enter(task) => task !in s.scanning
    case Leave(task) => task in s.scanning
  }

  function AfterTick(s: Runner, e: Tick): Runner {
    match e
    case Enter(task) => if s.running then s else Runner(true, s.scanning + {task})
    case Leave(task) => Runner(false, s.scanning - {task})
  }

  ghost predicate IsRunnerRun(states: seq<Runner>, ticks: seq<Tick>) {
    && |states| == |ticks| + 1
    && states[0] == Runner(false, {})
    && forall i :: 0 <= i < |ticks| ==>
         TickEnabled(states[i], ticks[i]) && states[i + 1] == AfterTick(states[i], ticks[i])
  }

  /** The flag is set exactly while a scan runs, and never two of them. */
  lemma {:induction false} OneScanAtATime(states: seq<Runner>, ticks: seq<Tick>, i: nat)
    requires IsRunnerRun(states, ticks) && i < |states|
    ensures forall a, b :: a in states[i].scanning && b in states[i].scanning ==> a == b
    ensures states[i].running <==> states[i].scanning != {}
  {
    if i > 0 {
      OneScanAtATime(states, ticks, i - 1);
    }
  }
}

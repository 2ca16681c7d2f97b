/**
 The life of an HTTP-01 challenge token: stored, declared ready to the CA,
 served while its order can still be validated, swept by age afterwards.

 One instance: the scan that runs orders and the hourly sweep are the same
 task, one after the other; reloads interleave with both.
 */
module TokenLife {
  import opened Prelude
  import opened HotReload

  const ACME_ORDER_LIFETIME_SECS: nat := 7 * 24 * 3600
  const HTTP_01_TOKEN_MAX_AGE: nat := ACME_ORDER_LIFETIME_SECS + 24 * 3600

  // ---- the age rule ----

  predicate IsStale(createdAt: Option<nat>, now: nat) {
    createdAt.None? || SatSub(now, createdAt.value) > HTTP_01_TOKEN_MAX_AGE
  }

  predicate IsToken(entry: StorageEntry) {
    entry.remark == Some(Http01Token) || entry.remark == Some(ManualDnsValue)
  }

  predicate Sweepable(entry: StorageEntry, now: nat) {
    IsToken(entry) && IsStale(entry.createdAt, now)
  }

  function SweepableNames(storages: map<string, StorageEntry>, now: nat): set<string> {
    set name | name in storages && Sweepable(storages[name], now)
  }

  /**
   `clear_stale_http_tokens` over a loaded configuration: deletes go one by one, a failed one is left
   for the next sweep, and nothing but old tokens is ever deleted.
   */
  method ClearStaleHttpTokens(storages: map<string, StorageEntry>, now: nat, undeletable: set<string>)
    returns (left: map<string, StorageEntry>, removed: nat)
    ensures left == storages - (SweepableNames(storages, now) - undeletable)
    ensures removed == |SweepableNames(storages, now) - undeletable|
    ensures forall name :: name in storages ==>
      (name in left <==>
         || name in undeletable
         || (storages[name].remark != Some(Http01Token) && storages[name].remark != Some(ManualDnsValue))
         || (storages[name].createdAt.Some? && now <= storages[name].createdAt.value + 691200))
  {
    left, removed := storages, 0;
    var todo := storages.Keys;
    ghost var target := SweepableNames(storages, now) - undeletable;
    ghost var gone := {};
    while todo != {}
      invariant todo <= storages.Keys
      invariant gone == target - todo
      invariant left == storages - gone && removed == |gone|
      decreases todo
    {
      var name :| name in todo;
      Visited(target, todo, name);
      todo := todo - {name};
      var stale := Sweepable(storages[name], now) && name !in undeletable;
      assert stale <==> name in target;
      if stale {
        DeleteOne(storages, gone, name);
        left := left - {name};
        gone := gone + {name};
        removed := removed + 1;
      }
    }
    SweptIff(storages, now);
  }

  /** What is swept, written out: the two kinds of challenge entry, without a time or more than eight days old. */
  lemma SweptIff(storages: map<string, StorageEntry>, now: nat)
    ensures forall name :: name in storages ==>
      (name in SweepableNames(storages, now) <==>
         && (storages[name].remark == Some(Http01Token) || storages[name].remark == Some(ManualDnsValue))
         && (storages[name].createdAt.Some? ==> now > storages[name].createdAt.value + 691200))
  {
  }

  lemma DeleteOne(storages: map<string, StorageEntry>, gone: set<string>, name: string)
    ensures storages - gone - {name} == storages - (gone + {name})
  {
  }

  lemma Visited(target: set<string>, todo: set<string>, name: string)
    requires name in todo
    ensures target - (todo - {name}) == if name in target then (target - todo) + {name} else target - todo
  {
  }

  // ---- the ACME task and the configuration store ----

  /** What the single runner is doing: between cycles, inside an order, or inside a sweep. */
  datatype Phase =
    | Idle
    | Ordering(orderedAt: nat, saved: set<string>)
    | Sweeping(now: nat, todo: set<string>)

  /** `ready` maps a token the CA was told about to the creation time of its order. */
  datatype Sys = Sys(raw: Raw, clock: nat, phase: Phase, ready: map<string, nat>, values: map<string, string>)

  datatype Event =
    | Tick(seconds: nat)
    | NewOrder
    | SaveToken(token: string, keyAuthorization: string)
    | SetReady(token: string)
    | SaveAccount(name: string, credentials: string)
    | SaveCertificate(name: string, conf: Cert, pem: string, key: string)
    | EndOrder
    | BeginSweep
    | DeleteStale(name: string)
    | DeleteFails(name: string)
    | EndSweep
    | ReloadConfig(generated: Doc)

  predicate Enabled(s: Sys, e: Event) {
    match e
    case Tick(_) => true
    case NewOrder => s.phase.Idle?
    case SaveToken(_, _) => s.phase.Ordering?
    // the challenge is declared ready only after its token was stored by the same order
    case SetReady(token) => s.phase.Ordering? && token in s.phase.saved
    // account entries have names of their own
    case SaveAccount(name, _) => s.phase.Ordering? && name !in s.values
    case SaveCertificate(_, _, _, _) => s.phase.Ordering?
    case EndOrder => s.phase.Ordering?
    case BeginSweep => s.phase.Idle?
    case DeleteStale(name) => s.phase.Sweeping? && name in s.phase.todo
    case DeleteFails(name) => s.phase.Sweeping? && name in s.phase.todo
    case EndSweep => s.phase.Sweeping? && s.phase.todo == {}
    case ReloadConfig(_) => true
  }

  function Apply(s: Sys, e: Event): Sys
    requires Enabled(s, e)
  {
    match e
    case Tick(seconds) => s.(clock := s.clock + seconds)
    case NewOrder => s.(phase := Ordering(s.clock, {}))
    case SaveToken(token, value) =>
      s.(raw := HotReload.Apply(s.raw, WriteStorage(token, StorageEntry(value, Some(Http01Token), Some(s.clock)))),
         phase := s.phase.(saved := s.phase.saved + {token}),
         values := s.values[token := value])
    case SetReady(token) => s.(ready := s.ready[token := s.phase.orderedAt])
    case SaveAccount(name, credentials) =>
      var entry := StorageEntry(credentials, Some(AccountCredentials), Some(s.clock));
      s.(raw := HotReload.Apply(s.raw, WriteStorage(name, entry)))
    case SaveCertificate(name, conf, pem, key) => s.(raw := HotReload.Apply(s.raw, Issue(name, conf, pem, key)))
    case EndOrder => s.(phase := Idle)
    case BeginSweep => s.(phase := Sweeping(s.clock, SweepableNames(StoragesOf(s.raw), s.clock)))
    case DeleteStale(name) =>
      s.(raw := HotReload.Apply(s.raw, DeleteStorage(name)), phase := s.phase.(todo := s.phase.todo - {name}))
    case DeleteFails(name) => s.(phase := s.phase.(todo := s.phase.todo - {name}))
    case EndSweep => s.(phase := Idle)
    case ReloadConfig(generated) => s.(raw := HotReload.Apply(s.raw, Reload(generated)))
  }

  // ---- the invariant ----

  /** The order that declared the token ready can still be validated. */
  predicate Alive(s: Sys, orderedAt: nat) {
    s.clock <= orderedAt + ACME_ORDER_LIFETIME_SECS
  }

  /** The entry serves the token's latest key authorization and is no older than the order. */
  predicate Served(s: Sys, token: string, since: nat) {
    var storages := StoragesOf(s.raw);
    && token in storages && token in s.values
    && storages[token].value == s.values[token]
    && storages[token].remark == Some(Http01Token)
    && storages[token].createdAt.Some?
    && since <= storages[token].createdAt.value <= s.clock
  }

  ghost predicate Inv(s: Sys) {
    && s.raw.Parsed?
    && (forall token :: token in s.ready && Alive(s, s.ready[token]) ==> Served(s, token, s.ready[token]))
    && (s.phase.Ordering? ==> s.phase.orderedAt <= s.clock)
    && (s.phase.Ordering? ==> forall token :: token in s.phase.saved ==> Served(s, token, s.phase.orderedAt))
    && (s.phase.Sweeping? ==>
          && s.phase.now <= s.clock
          && (forall token :: token in s.phase.todo && token in s.ready ==> !Alive(s, s.ready[token]))
          && (forall name :: name in s.phase.todo ==>
                name in StoragesOf(s.raw) && Sweepable(StoragesOf(s.raw)[name], s.phase.now)))
  }

  /** Events that leave the storage entries and the records of the ACME task alone. */
  lemma QuietStepKeeps(s: Sys, e: Event)
    requires Inv(s) && Enabled(s, e)
    requires e.Tick? || e.NewOrder? || e.EndOrder? || e.EndSweep? || e.SetReady? || e.DeleteFails?
    ensures Inv(Apply(s, e))
  {
  }

  lemma DocStepKeeps(s: Sys, e: Event)
    requires Inv(s) && Enabled(s, e) && (e.ReloadConfig? || e.SaveCertificate?)
    ensures Inv(Apply(s, e))
  {
    // without a storages section there is nothing to lose
    var before, after := StoragesOf(s.raw), StoragesOf(Apply(s, e).raw);
    assert forall name :: name in before ==> name in after && after[name] == before[name];
  }

  lemma SaveStepKeeps(s: Sys, e: Event)
    requires Inv(s) && Enabled(s, e) && (e.SaveToken? || e.SaveAccount?)
    ensures Inv(Apply(s, e))
  {
  }

  lemma BeginSweepKeeps(s: Sys, e: Event)
    requires Inv(s) && Enabled(s, e) && e.BeginSweep?
    ensures Inv(Apply(s, e))
  {
    var t := Apply(s, e);
    forall token | token in t.phase.todo && token in t.ready ensures !Alive(t, t.ready[token]) {
      assert Alive(s, s.ready[token]) ==> Served(s, token, s.ready[token]);
    }
  }

  lemma DeleteStepKeeps(s: Sys, e: Event)
    requires Inv(s) && Enabled(s, e) && e.DeleteStale?
    ensures Inv(Apply(s, e))
  {
    var t := Apply(s, e);
    assert StoragesOf(t.raw) == StoragesOf(s.raw) - {e.name};
  }

  lemma StepKeepsInv(s: Sys, e: Event)
    requires Inv(s) && Enabled(s, e)
    ensures Inv(Apply(s, e))
  {
    match e
    case SaveToken(_, _) => SaveStepKeeps(s, e);
    case SaveAccount(_, _) => SaveStepKeeps(s, e);
    case SaveCertificate(_, _, _, _) => DocStepKeeps(s, e);
    case ReloadConfig(_) => DocStepKeeps(s, e);
    case BeginSweep => BeginSweepKeeps(s, e);
    case DeleteStale(_) => DeleteStepKeeps(s, e);
    case _ => QuietStepKeeps(s, e);
  }

  // ---- whole runs ----

  ghost predicate IsRun(states: seq<Sys>, events: seq<Event>) {
    && |states| == |events| + 1
    && states[0].ready == map[] && states[0].values == map[] && states[0].phase.Idle?
    && states[0].raw.Parsed?
    && forall i :: 0 <= i < |events| ==> Enabled(states[i], events[i]) && states[i + 1] == Apply(states[i], events[i])
  }

  lemma {:induction false} RunInv(states: seq<Sys>, events: seq<Event>, i: nat)
    requires IsRun(states, events) && i < |states|
    ensures Inv(states[i])
  {
    if i > 0 {
      RunInv(states, events, i - 1);
      StepKeepsInv(states[i - 1], events[i - 1]);
    }
  }

  /**
   From the moment a challenge is declared ready until the lifetime of its order ends, its token is in
   storage with its latest key authorization - at every point of every run.
   */
  lemma ReadyTokenIsServed(states: seq<Sys>, events: seq<Event>, i: nat, token: string)
    requires IsRun(states, events) && i < |states|
    requires token in states[i].ready && states[i].clock <= states[i].ready[token] + 604800
    ensures token in StoragesOf(states[i].raw) && token in states[i].values
    ensures StoragesOf(states[i].raw)[token].value == states[i].values[token]
  {
    RunInv(states, events, i);
    assert Alive(states[i], states[i].ready[token]);
  }

  lemma {:induction false} ReadyIsKept(states: seq<Sys>, events: seq<Event>, from: nat, to: nat, token: string)
    requires IsRun(states, events) && from <= to < |states| && token in states[from].ready
    ensures token in states[to].ready && states[to].ready[token] >= states[from].ready[token]
  {
    if from < to {
      ReadyIsKept(states, events, from, to - 1, token);
      RunInv(states, events, to - 1);
      OrdersAreLater(states, events, to - 1, token);
    }
  }

  /** An order in progress was created no earlier than any order a ready challenge belongs to. */
  lemma {:induction false} OrdersAreLater(states: seq<Sys>, events: seq<Event>, i: nat, token: string)
    requires IsRun(states, events) && i < |states|
    ensures token in states[i].ready ==> states[i].ready[token] <= states[i].clock
    ensures states[i].phase.Ordering? && token in states[i].ready ==>
      states[i].ready[token] <= states[i].phase.orderedAt
  {
    if i > 0 {
      OrdersAreLater(states, events, i - 1, token);
      RunInv(states, events, i - 1);
    }
  }

  /** So a token declared ready at one point is still served at every later point within that order's lifetime. */
  lemma TokenOutlivesItsOrder(states: seq<Sys>, events: seq<Event>, from: nat, to: nat, token: string)
    requires IsRun(states, events) && from <= to < |states| && token in states[from].ready
    requires states[to].clock <= states[from].ready[token] + 604800
    ensures token in StoragesOf(states[to].raw)
  {
    ReadyIsKept(states, events, from, to, token);
    ReadyTokenIsServed(states, events, to, token);
  }

  /** Only a sweep deletes, and what it deletes is a challenge entry older than eight days, or without a time. */
  lemma OnlyOldTokensVanish(states: seq<Sys>, events: seq<Event>, i: nat, name: string)
    requires IsRun(states, events) && i < |events|
    requires name in StoragesOf(states[i].raw) && name !in StoragesOf(states[i + 1].raw)
    ensures events[i] == DeleteStale(name)
    ensures var entry := StoragesOf(states[i].raw)[name];
            && (entry.remark == Some(Http01Token) || entry.remark == Some(ManualDnsValue))
            && (entry.createdAt.Some? ==> states[i].clock > entry.createdAt.value + 691200)
  {
    RunInv(states, events, i);
    if events[i].ReloadConfig? && states[i].raw.doc.storages.Some? {
      ReloadKeepsStorages(states[i].raw, events[i].generated);
    }
    assert events[i].DeleteStale? && events[i].name == name;
  }

  /** An entry some event stores under its own name. */
  predicate Stores(e: Event, name: string) {
    (e.SaveToken? && e.token == name) || (e.SaveAccount? && e.name == name)
  }

  /**
   An entry whose remark marks neither an HTTP-01 token nor a manual DNS value - account credentials,
   whatever a person wrote, or no remark - is stored at every later point of every run, and unchanged
   until the task itself stores something under its name.
   */
  lemma {:induction false} OtherEntriesStay(states: seq<Sys>, events: seq<Event>, from: nat, to: nat, name: string)
    requires IsRun(states, events) && from <= to < |states| && name in StoragesOf(states[from].raw)
    requires StoragesOf(states[from].raw)[name].remark != Some(Http01Token)
    requires StoragesOf(states[from].raw)[name].remark != Some(ManualDnsValue)
    requires forall j :: from <= j < to ==> !Stores(events[j], name)
    ensures name in StoragesOf(states[to].raw)
    ensures StoragesOf(states[to].raw)[name] == StoragesOf(states[from].raw)[name]
  {
    if from < to {
      OtherEntriesStay(states, events, from, to - 1, name);
      if name !in StoragesOf(states[to].raw) {
        OnlyOldTokensVanish(states, events, to - 1, name);
      }
      RunInv(states, events, to - 1);
      EntryUnchanged(states[to - 1], events[to - 1], name);
    }
  }

  /** Account credentials, once stored, are there at every later point until stored anew. */
  lemma AccountStays(states: seq<Sys>, events: seq<Event>, i: nat, to: nat)
    requires IsRun(states, events) && i < to < |states| && events[i].SaveAccount?
    requires forall j :: i < j < to ==> !Stores(events[j], events[i].name)
    ensures events[i].name in StoragesOf(states[to].raw)
    ensures StoragesOf(states[to].raw)[events[i].name].value == events[i].credentials
  {
    RunInv(states, events, i);
    OtherEntriesStay(states, events, i + 1, to, events[i].name);
  }

  lemma EntryUnchanged(s: Sys, e: Event, name: string)
    requires Inv(s) && Enabled(s, e) && !Stores(e, name)
    requires name in StoragesOf(s.raw) && name in StoragesOf(Apply(s, e).raw)
    ensures StoragesOf(Apply(s, e).raw)[name] == StoragesOf(s.raw)[name]
  {
    if e.ReloadConfig? && s.raw.doc.storages.Some? {
      ReloadKeepsStorages(s.raw, e.generated);
    }
  }

  /** What can come between the start and the end of a sweep: its deletions, reloads and time. */
  predicate WithinSweep(e: Event) {
    e.DeleteStale? || e.DeleteFails? || e.ReloadConfig? || e.Tick?
  }

  /** A token old enough at the start of a sweep is on its list, and the sweep does not end before trying it. */
  lemma {:induction false} SweepReaches(states: seq<Sys>, events: seq<Event>, begin: nat, i: nat, name: string)
    requires IsRun(states, events) && begin < i < |states|
    requires events[begin] == BeginSweep
    requires forall j :: begin < j < i ==> WithinSweep(events[j])
    requires name in StoragesOf(states[begin].raw)
    requires Sweepable(StoragesOf(states[begin].raw)[name], states[begin].clock)
    requires forall j :: begin < j < i ==> events[j] != DeleteFails(name)
    ensures states[i].phase.Sweeping? && states[i].raw.Parsed? && states[i].raw.doc.storages.Some?
    ensures name in states[i].phase.todo || name !in StoragesOf(states[i].raw)
  {
    RunInv(states, events, i - 1);
    if i > begin + 1 {
      SweepReaches(states, events, begin, i - 1, name);
      if events[i - 1].ReloadConfig? && states[i - 1].raw.doc.storages.Some? {
        ReloadKeepsStorages(states[i - 1].raw, events[i - 1].generated);
      }
    }
  }

  /**
   Any completed sweep that starts more than eight days after a token was stored removes it, unless its
   delete fails.
   */
  lemma SweepRemovesOldTokens(states: seq<Sys>, events: seq<Event>, begin: nat, end: nat, name: string)
    requires IsRun(states, events) && begin < end < |events|
    requires events[begin] == BeginSweep && events[end] == EndSweep
    requires forall j :: begin < j < end ==> WithinSweep(events[j])
    requires forall j :: begin < j < end ==> events[j] != DeleteFails(name)
    requires name in StoragesOf(states[begin].raw)
    requires var entry := StoragesOf(states[begin].raw)[name];
             && (entry.remark == Some(Http01Token) || entry.remark == Some(ManualDnsValue))
             && (entry.createdAt.Some? ==> states[begin].clock > entry.createdAt.value + 691200)
    ensures name !in StoragesOf(states[end + 1].raw)
  {
    SweepReaches(states, events, begin, end, name);
  }
}

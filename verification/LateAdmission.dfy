/**
 Runs in which a get admits what it read before the key changed, and calls that
 run alone as runs of the same steps.
 */
module LateAdmission {
  import opened Prelude
  import opened CacheCodec
  import opened PathLayout
  import opened FileCache
  import opened CacheAnswers
  import opened LayerRaces
  import opened LayerRuns

  // ---- short runs ----

  lemma Two(env: Env, s: Sys, a: Event, b: Event)
    requires Enabled(env, s, a) && Enabled(env, Apply(env, s, a), b)
    ensures Possible(env, s, [a, b]) && After(env, s, [a, b]) == Apply(env, Apply(env, s, a), b)
  {
    OneEvent(env, Apply(env, s, a), b);
    assert [a, b][1..] == [b];
  }

  lemma Three(env: Env, s: Sys, a: Event, b: Event, c: Event)
    requires Enabled(env, s, a) && Enabled(env, Apply(env, s, a), b) && Enabled(env, Apply(env, Apply(env, s, a), b), c)
    ensures Possible(env, s, [a, b, c]) && After(env, s, [a, b, c]) == Apply(env, Apply(env, Apply(env, s, a), b), c)
  {
    Two(env, Apply(env, s, a), b, c);
    assert [a, b, c][1..] == [b, c];
  }

  lemma LatestOfThree(latest: Latest, a: Event, b: Event, c: Event)
    ensures LatestAfter(latest, [a, b, c]) == Recorded(Recorded(Recorded(latest, a), b), c)
  {
    assert [a, b, c][1..] == [b, c] && [b, c][1..] == [c] && [c][1..] == [];
    var two := Recorded(Recorded(latest, a), b);
    assert LatestAfter(two, [c]) == LatestAfter(Recorded(two, c), []);
    assert LatestAfter(Recorded(latest, a), [b, c]) == LatestAfter(two, [c]);
  }

  lemma {:induction false} LatestContinued(latest: Latest, a: seq<Event>, b: seq<Event>)
    ensures LatestAfter(latest, a + b) == LatestAfter(LatestAfter(latest, a), b)
    decreases |a|
  {
    if a == [] {
      assert a + b == b;
    } else {
      LatestContinued(Recorded(latest, a[0]), a[1..], b);
      assert (a + b)[1..] == a[1..] + b;
    }
  }

  // ---- a get that read, and has not admitted yet ----

  /** An object small enough for memory and for an inline read. */
  predicate Small(env: Env, o: CacheObject) {
    Admissible(env.cfg, o) && Representable(o) && |Encode(o)| <= INLINE_MAX_BYTES
  }

  function StoredEvents(key: string, o: CacheObject): seq<Event> {
    [HotPut(0, key, o), DiskPut(0, 0), Lose({key}, {})]
  }

  /** Stored, forgotten by memory, read by a get. */
  function ReadOnce(env: Env, key: string, o: CacheObject): Sys {
    Sys(map[FileOf(env, key) := DiskFile(Encode(o), 1)], map[], map[0 := Held(key, o)], map[], map[])
  }

  function ReadEvents(key: string, o: CacheObject): seq<Event> {
    StoredEvents(key, o) + [ReadFile(0, key, 1)]
  }

  lemma GetHasRead(env: Env, key: string, o: CacheObject)
    requires ProperKey(env, key) && Small(env, o)
    ensures Possible(env, EMPTY, ReadEvents(key, o)) && After(env, EMPTY, ReadEvents(key, o)) == ReadOnce(env, key, o)
    ensures LatestAfter(map[], ReadEvents(key, o)) == map[key := o]
  {
    var a, b, c, d := HotPut(0, key, o), DiskPut(0, 0), Lose({key}, {}), ReadFile(0, key, 1);
    Three(env, EMPTY, a, b, c);
    var s := After(env, EMPTY, StoredEvents(key, o));
    assert s == Sys(map[FileOf(env, key) := DiskFile(Encode(o), 0)], map[], map[], map[], map[]);
    DecodeUndoesEncode(o);
    OneEvent(env, s, d);
    Continued(env, EMPTY, StoredEvents(key, o), [d]);
    LatestOfThree(map[], a, b, c);
    LatestContinued(map[], StoredEvents(key, o), [d]);
    assert [d][1..] == [];
  }

  function RemoveEvents(key: string): seq<Event> {
    [HotRemove(0, key), DiskRemove(0), Admit(0)]
  }

  /**
   A remove that comes between a get's read and its admission does not stick: both calls have ended,
   nothing was put since, and every later get can answer the removed object.
   */
  lemma RemovedObjectComesBack(env: Env, key: string, o: CacheObject)
    requires ProperKey(env, key) && Small(env, o)
    ensures var events := ReadEvents(key, o) + RemoveEvents(key);
            && Possible(env, EMPTY, events) && key !in LatestAfter(map[], events)
            && After(env, EMPTY, events) == EMPTY.(hot := map[key := o])
            && CanAnswer(env, After(env, EMPTY, events), key, o)
  {
    var s := ReadOnce(env, key, o);
    GetHasRead(env, key, o);
    Three(env, s, HotRemove(0, key), DiskRemove(0), Admit(0));
    Continued(env, EMPTY, ReadEvents(key, o), RemoveEvents(key));
    LatestOfThree(map[key := o], HotRemove(0, key), DiskRemove(0), Admit(0));
    LatestContinued(map[], ReadEvents(key, o), RemoveEvents(key));
  }

  /** A purge in the same place does not stick either. */
  lemma PurgedObjectComesBack(env: Env, key: string, o: CacheObject)
    requires ProperKey(env, key) && Small(env, o)
    ensures var events := ReadEvents(key, o) + [Lose({key}, {FileOf(env, key)}), Admit(0)];
            && Possible(env, EMPTY, events)
            && After(env, EMPTY, events) == EMPTY.(hot := map[key := o])
            && CanAnswer(env, After(env, EMPTY, events), key, o)
  {
    GetHasRead(env, key, o);
    Two(env, ReadOnce(env, key, o), Lose({key}, {FileOf(env, key)}), Admit(0));
    Continued(env, EMPTY, ReadEvents(key, o), [Lose({key}, {FileOf(env, key)}), Admit(0)]);
  }

  function ReplaceEvents(key: string, newer: CacheObject): seq<Event> {
    [HotPut(0, key, newer), DiskPut(0, 2), Admit(0)]
  }

  /**
   A put that comes there is hidden, although both objects are on the memory side of the limit and both
   writes went through: memory has the older one in front of the newer file.
   */
  lemma NewerObjectIsHidden(env: Env, key: string, older: CacheObject, newer: CacheObject)
    requires ProperKey(env, key) && Small(env, older) && Small(env, newer)
    ensures var events := ReadEvents(key, older) + ReplaceEvents(key, newer);
            && Possible(env, EMPTY, events) && LatestAfter(map[], events) == map[key := newer]
            && After(env, EMPTY, events) ==
                 EMPTY.(hot := map[key := older], disk := map[FileOf(env, key) := DiskFile(Encode(newer), 2)])
            && CanAnswer(env, After(env, EMPTY, events), key, older)
  {
    var s := ReadOnce(env, key, older);
    GetHasRead(env, key, older);
    Three(env, s, HotPut(0, key, newer), DiskPut(0, 2), Admit(0));
    Continued(env, EMPTY, ReadEvents(key, older), ReplaceEvents(key, newer));
    LatestOfThree(map[key := older], HotPut(0, key, newer), DiskPut(0, 2), Admit(0));
    LatestContinued(map[], ReadEvents(key, older), ReplaceEvents(key, newer));
  }

  // ---- calls that run alone ----

  /** A store with no call in flight. */
  function Resting(s: Store): Sys {
    Sys(s.disk, s.hot, map[], map[], map[])
  }

  /** A put of the file cache is its memory step, the evictions and its file step, or its memory step and a skip. */
  lemma PutIsItsSteps(env: Env, s: Store, penv: PutEnv, key: string, o: CacheObject)
    requires ProperKey(env, key)
    ensures var plan := WritePlan(env.cfg, PutHot(env.cfg, s, key, o), penv, FileOf(env, key), Encode(o));
            var events := if plan.ok
                          then [HotPut(0, key, o), Lose({}, ToSet(plan.victims)), DiskPut(0, penv.now)]
                          else [HotPut(0, key, o), SkipPut(0)];
            && Possible(env, Resting(s), events)
            && After(env, Resting(s), events) == Resting(AfterPut(env.cfg, s, penv, env.nsOf(key), key, o))
  {
    var plan := WritePlan(env.cfg, PutHot(env.cfg, s, key, o), penv, FileOf(env, key), Encode(o));
    if plan.ok {
      Three(env, Resting(s), HotPut(0, key, o), Lose({}, ToSet(plan.victims)), DiskPut(0, penv.now));
    } else {
      Two(env, Resting(s), HotPut(0, key, o), SkipPut(0));
    }
  }

  lemma RemoveIsItsSteps(env: Env, s: Store, key: string)
    requires ProperKey(env, key)
    ensures var events := [HotRemove(0, key), DiskRemove(0)];
            && Possible(env, Resting(s), events)
            && After(env, Resting(s), events) == Resting(AfterRemove(env.cfg, s, env.nsOf(key), key))
  {
    Two(env, Resting(s), HotRemove(0, key), DiskRemove(0));
  }

  function GetEvents(env: Env, s: Store, reading: nat, now: int, key: string): seq<Event> {
    if env.cfg.hotEnabled && key in s.hot then []
    else if env.cfg.readingMax > 0 && reading >= env.cfg.readingMax then []
    else if FileOf(env, key) !in s.disk then []
    else if Decode(s.disk[FileOf(env, key)].data).Err? then [Lose({}, {FileOf(env, key)})]
    else if |s.disk[FileOf(env, key)].data| <= INLINE_MAX_BYTES then [ReadFile(0, key, now), Admit(0)]
    else [ReadFile(0, key, now)]
  }

  /**
   A get is a memory hit, a miss, a discard, or its read and its admission. What it returns it could
   answer, and it returns nothing exactly when memory has no copy and the gate is shut or the file
   cannot answer.
   */
  lemma GetIsItsSteps(env: Env, s: Store, reading: nat, now: int, key: string)
    requires ProperKey(env, key)
    ensures var events, (r, t) := GetEvents(env, s, reading, now, key), AfterGet(env.cfg, s, reading, now,
        env.nsOf(key), key);
            && Possible(env, Resting(s), events)
            && After(env, Resting(s), events) == Resting(t)
            && (r.Some? ==> CanAnswer(env, Resting(s), key, r.value))
            && (r.None? <==>
                  && !(env.cfg.hotEnabled && key in s.hot)
                  && (|| (env.cfg.readingMax != 0 && env.cfg.readingMax <= reading)
                      || forall o :: !CanAnswer(env, Resting(s), key, o)))
  {
    GetMissesIff(env.cfg, s, reading, now, env.nsOf(key), key);
    assert FileOf(env, key) in s.disk && Decode(s.disk[FileOf(env, key)].data).Ok? ==>
      CanAnswer(env, Resting(s), key, Decode(s.disk[FileOf(env, key)].data).value);
    var events := GetEvents(env, s, reading, now, key);
    if |events| == 1 {
      OneEvent(env, Resting(s), events[0]);
    } else if |events| == 2 {
      Two(env, Resting(s), events[0], events[1]);
    }
  }
}

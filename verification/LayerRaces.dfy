/**
 The two layers under concurrent calls. A put fills memory and later its file, a
 remove drops the memory copy and later the file, and a get that missed memory
 reads the file and later admits what it read. Nothing is locked in between, so
 any other step may come there.
 */
module LayerRaces {
  import opened Prelude
  import opened CacheCodec
  import opened PathLayout
  import opened FileCache

  /** The configuration, and the namespace of each key: memory looks keys up without it. */
  datatype Env = Env(cfg: Config, nsOf: string -> string)

  /** A call in flight: a put before its file is written, or a get before it admits what it read. */
  datatype Held = Held(key: string, obj: CacheObject)

  datatype Sys = Sys(disk: Disk, hot: map<string, CacheObject>, gets: map<nat, Held>, puts: map<nat, Held>,
                     removes: map<nat, string>)

  datatype Event =
    | HotPut(w: nat, key: string, obj: CacheObject)
    | DiskPut(w: nat, now: int)           // the rename
    | SkipPut(w: nat)                     // gate, budget, error or cancellation
    | HotRemove(w: nat, key: string)
    | DiskRemove(w: nat)
    | FailRemove(w: nat)                  // error or cancellation
    | ReadFile(r: nat, key: string, now: int)
    | Admit(r: nat)
    | DropGet(r: nat)                     // cancellation
    | Lose(keys: set<string>, paths: set<Path>)   // memory drops, evictions, sweeps, purges, discards

  const EMPTY: Sys := Sys(map[], map[], map[], map[], map[])

  function FileOf(env: Env, key: string): Path {
    FilePath(env.cfg.levels, env.nsOf(key), key)
  }

  predicate ProperKey(env: Env, key: string) {
    HashKey(key) && NamespaceOk(env.nsOf(key))
  }

  function Admitted(env: Env, hot: map<string, CacheObject>, key: string, o: CacheObject): map<string, CacheObject> {
    if Admissible(env.cfg, o) then hot[key := o] else hot
  }

  predicate Enabled(env: Env, s: Sys, e: Event) {
    match e
    case HotPut(w, key, _) => w !in s.puts && ProperKey(env, key)
    case DiskPut(w, _) => w in s.puts
    case SkipPut(w) => w in s.puts
    case HotRemove(w, key) => w !in s.removes && ProperKey(env, key)
    case DiskRemove(w) => w in s.removes
    case FailRemove(w) => w in s.removes
    case ReadFile(r, key, _) =>
      r !in s.gets && ProperKey(env, key) && FileOf(env, key) in s.disk && Decode(s.disk[FileOf(env, key)].data).Ok?
    case Admit(r) => r in s.gets
    case DropGet(r) => r in s.gets
    case Lose(_, _) => true
  }

  function Apply(env: Env, s: Sys, e: Event): Sys
    requires Enabled(env, s, e)
  {
    match e
    case HotPut(w, key, o) => s.(hot := Admitted(env, s.hot, key, o), puts := s.puts[w := Held(key, o)])
    case DiskPut(w, now) =>
      var p := s.puts[w];
      s.(disk := s.disk[FileOf(env, p.key) := DiskFile(Encode(p.obj), now)], puts := s.puts - {w})
    case SkipPut(w) => s.(puts := s.puts - {w})
    case HotRemove(w, key) => s.(hot := s.hot - {key}, removes := s.removes[w := key])
    case DiskRemove(w) => s.(disk := s.disk - {FileOf(env, s.removes[w])}, removes := s.removes - {w})
    case FailRemove(w) => s.(removes := s.removes - {w})
    case ReadFile(r, key, now) =>
      var data := s.disk[FileOf(env, key)].data;
      var read := s.(disk := s.disk[FileOf(env, key) := DiskFile(data, now)]);
      // a streamed body is not admitted
      if |data| <= INLINE_MAX_BYTES then read.(gets := s.gets[r := Held(key, Decode(data).value)]) else read
    case Admit(r) =>
      s.(hot := Admitted(env, s.hot, s.gets[r].key, s.gets[r].obj), gets := s.gets - {r})
    case DropGet(r) => s.(gets := s.gets - {r})
    case Lose(keys, paths) => s.(hot := s.hot - keys, disk := s.disk - paths)
  }

  // ---- runs ----

  predicate Possible(env: Env, s: Sys, events: seq<Event>)
    decreases |events|
  {
    events == [] || (Enabled(env, s, events[0]) && Possible(env, Apply(env, s, events[0]), events[1..]))
  }

  function After(env: Env, s: Sys, events: seq<Event>): Sys
    requires Possible(env, s, events)
    decreases |events|
  {
    if events == [] then s else After(env, Apply(env, s, events[0]), events[1..])
  }

  lemma OneEvent(env: Env, s: Sys, e: Event)
    requires Enabled(env, s, e)
    ensures Possible(env, s, [e]) && After(env, s, [e]) == Apply(env, s, e)
  {
    assert [e][1..] == [];
  }

  lemma {:induction false} Continued(env: Env, s: Sys, a: seq<Event>, b: seq<Event>)
    requires Possible(env, s, a) && Possible(env, After(env, s, a), b)
    ensures Possible(env, s, a + b) && After(env, s, a + b) == After(env, After(env, s, a), b)
    decreases |a|
  {
    if a == [] {
      assert a + b == b;
    } else {
      Continued(env, Apply(env, s, a[0]), a[1..], b);
      assert (a + b)[0] == a[0] && (a + b)[1..] == a[1..] + b;
    }
  }

  /** What a get of the key can answer: the memory copy, or the object in the file. */
  predicate CanAnswer(env: Env, s: Sys, key: string, o: CacheObject) {
    || (env.cfg.hotEnabled && key in s.hot && s.hot[key] == o)
    || (FileOf(env, key) in s.disk && Decode(s.disk[FileOf(env, key)].data) == Ok(o))
  }

  predicate NoPutOf(events: seq<Event>, key: string) {
    forall i :: 0 <= i < |events| ==> !(events[i].HotPut? && events[i].key == key)
  }

  /** Whatever happens from here on short of a new put, a get of the key answers `want` or misses. */
  ghost predicate OnlyAnswers(env: Env, s: Sys, key: string, want: Option<CacheObject>) {
    forall events, o ::
      Possible(env, s, events) && NoPutOf(events, key) && CanAnswer(env, After(env, s, events), key, o) ==>
          want == Some(o)
  }

  // ---- when a key is settled ----

  predicate Agrees(data: seq<Byte>, want: Option<CacheObject>) {
    Decode(data).Ok? ==> want == Some(Decode(data).value)
  }

  ghost predicate GetsAgree(env: Env, s: Sys, key: string, want: Option<CacheObject>) {
    forall r :: r in s.gets && s.gets[r].key == key && Admissible(env.cfg, s.gets[r].obj) ==>
        want == Some(s.gets[r].obj)
  }

  ghost predicate PutsAgree(s: Sys, key: string, want: Option<CacheObject>) {
    forall w :: w in s.puts && s.puts[w].key == key ==> Agrees(Encode(s.puts[w].obj), want)
  }

  /** Memory, file, every get about to admit and every put about to write agree on the object. */
  ghost predicate Settled(env: Env, s: Sys, key: string, want: Option<CacheObject>) {
    && (env.cfg.hotEnabled && key in s.hot ==> want == Some(s.hot[key]))
    && (FileOf(env, key) in s.disk ==> Agrees(s.disk[FileOf(env, key)].data, want))
    && GetsAgree(env, s, key, want) && PutsAgree(s, key, want)
  }

  lemma FilesApart(env: Env, a: string, b: string)
    requires ProperKey(env, a) && ProperKey(env, b) && a != b
    ensures FileOf(env, a) != FileOf(env, b)
  {
    if FileOf(env, a) == FileOf(env, b) {
      PathsDistinct(env.cfg.levels, env.nsOf(a), a, env.nsOf(b), b);
    }
  }

  /** Calls in flight are for proper keys. */
  ghost predicate Proper(env: Env, s: Sys) {
    && (forall w :: w in s.puts ==> ProperKey(env, s.puts[w].key))
    && (forall w :: w in s.removes ==> ProperKey(env, s.removes[w]))
  }

  lemma StepKeepsProper(env: Env, s: Sys, e: Event)
    requires Proper(env, s) && Enabled(env, s, e)
    ensures Proper(env, Apply(env, s, e))
  {
  }

  lemma DiskPutKeepsSettled(env: Env, s: Sys, e: Event, key: string, want: Option<CacheObject>)
    requires Proper(env, s) && ProperKey(env, key) && Settled(env, s, key, want) && Enabled(env, s, e) && e.DiskPut?
    ensures Settled(env, Apply(env, s, e), key, want)
  {
    if s.puts[e.w].key != key {
      FilesApart(env, s.puts[e.w].key, key);
    }
  }

  lemma ReadFileKeepsSettled(env: Env, s: Sys, e: Event, key: string, want: Option<CacheObject>)
    requires ProperKey(env, key) && Settled(env, s, key, want) && Enabled(env, s, e) && e.ReadFile?
    ensures Settled(env, Apply(env, s, e), key, want)
  {
    if e.key != key {
      FilesApart(env, e.key, key);
    }
  }

  lemma AdmitKeepsSettled(env: Env, s: Sys, e: Event, key: string, want: Option<CacheObject>)
    requires Settled(env, s, key, want) && Enabled(env, s, e) && e.Admit?
    ensures Settled(env, Apply(env, s, e), key, want)
  {
  }

  lemma HotPutKeepsSettled(env: Env, s: Sys, e: Event, key: string, want: Option<CacheObject>)
    requires Settled(env, s, key, want) && Enabled(env, s, e) && e.HotPut? && e.key != key
    ensures Settled(env, Apply(env, s, e), key, want)
  {
  }

  lemma LossKeepsSettled(env: Env, s: Sys, e: Event, key: string, want: Option<CacheObject>)
    requires Settled(env, s, key, want) && Enabled(env, s, e)
    requires e.SkipPut? || e.HotRemove? || e.DiskRemove? || e.FailRemove? || e.DropGet? || e.Lose?
    ensures Settled(env, Apply(env, s, e), key, want)
  {
  }

  lemma StepKeepsSettled(env: Env, s: Sys, e: Event, key: string, want: Option<CacheObject>)
    requires Proper(env, s) && ProperKey(env, key) && Settled(env, s, key, want) && Enabled(env, s, e)
    requires !(e.HotPut? && e.key == key)
    ensures Settled(env, Apply(env, s, e), key, want)
  {
    match e
    case HotPut(_, _, _) => HotPutKeepsSettled(env, s, e, key, want);
    case DiskPut(_, _) => DiskPutKeepsSettled(env, s, e, key, want);
    case ReadFile(_, _, _) => ReadFileKeepsSettled(env, s, e, key, want);
    case Admit(_) => AdmitKeepsSettled(env, s, e, key, want);
    case _ => LossKeepsSettled(env, s, e, key, want);
  }

  lemma {:induction false} RunKeepsSettled(env: Env, s: Sys, events: seq<Event>, key: string, want: Option<CacheObject>)
    requires Proper(env, s) && ProperKey(env, key) && Settled(env, s, key, want)
    requires Possible(env, s, events) && NoPutOf(events, key)
    ensures Settled(env, After(env, s, events), key, want)
    decreases |events|
  {
    if events != [] {
      var t := Apply(env, s, events[0]);
      assert !(events[0].HotPut? && events[0].key == key);
      StepKeepsProper(env, s, events[0]);
      StepKeepsSettled(env, s, events[0], key, want);
      assert forall i :: 0 <= i < |events[1..]| ==> events[1..][i] == events[i + 1];
      RunKeepsSettled(env, t, events[1..], key, want);
    }
  }

  lemma AnswersNow(env: Env, s: Sys, key: string, o: CacheObject, want: Option<CacheObject>)
    requires OnlyAnswers(env, s, key, want) && CanAnswer(env, s, key, o)
    ensures want == Some(o)
  {
    assert Possible(env, s, []) && NoPutOf([], key) && After(env, s, []) == s;
  }

  lemma AnswersAfter(env: Env, s: Sys, e: Event, key: string, o: CacheObject, want: Option<CacheObject>)
    requires OnlyAnswers(env, s, key, want) && Enabled(env, s, e) && !e.HotPut?
    requires CanAnswer(env, Apply(env, s, e), key, o)
    ensures want == Some(o)
  {
    OneEvent(env, s, e);
    assert Possible(env, s, [e]) && NoPutOf([e], key);
  }

  /**
   The exact condition: from here on a get can answer nothing but `want`, in every interleaving without
   a new put of the key, if and only if memory, file, late admissions and late writes agree on it now.
   */
  lemma SettledIff(env: Env, s: Sys, key: string, want: Option<CacheObject>)
    requires Proper(env, s) && ProperKey(env, key)
    ensures OnlyAnswers(env, s, key, want) <==> Settled(env, s, key, want)
  {
    if Settled(env, s, key, want) {
      forall events, o | Possible(env, s, events) && NoPutOf(events, key)
          && CanAnswer(env, After(env, s, events), key, o)
        ensures want == Some(o)
      {
        RunKeepsSettled(env, s, events, key, want);
      }
    }
    if OnlyAnswers(env, s, key, want) {
      if env.cfg.hotEnabled && key in s.hot {
        AnswersNow(env, s, key, s.hot[key], want);
      }
      if FileOf(env, key) in s.disk && Decode(s.disk[FileOf(env, key)].data).Ok? {
        AnswersNow(env, s, key, Decode(s.disk[FileOf(env, key)].data).value, want);
      }
      forall r | r in s.gets && s.gets[r].key == key && Admissible(env.cfg, s.gets[r].obj)
        ensures want == Some(s.gets[r].obj)
      {
        AnswersAfter(env, s, Admit(r), key, s.gets[r].obj, want);
      }
      forall w | w in s.puts && s.puts[w].key == key ensures Agrees(Encode(s.puts[w].obj), want) {
        if Decode(Encode(s.puts[w].obj)).Ok? {
          AnswersAfter(env, s, DiskPut(w, 0), key, Decode(Encode(s.puts[w].obj)).value, want);
        }
      }
    }
  }

  /** Nothing in flight can bring the key back: no get about to admit it, no put about to write it. */
  ghost predicate NothingLate(env: Env, s: Sys, key: string) {
    && (forall r :: r in s.gets && s.gets[r].key == key ==> !Admissible(env.cfg, s.gets[r].obj))
    && (forall w :: w in s.puts && s.puts[w].key == key ==> Decode(Encode(s.puts[w].obj)).Err?)
  }

  /** Neither layer can answer for the key. */
  predicate Gone(env: Env, s: Sys, key: string) {
    !(env.cfg.hotEnabled && key in s.hot) && FileOf(env, key) !in s.disk
  }

  /**
   However a key went - remove, purge, sweep or eviction - every get misses until the next put if and
   only if no get is about to admit it and no put about to write it.
   */
  lemma RemoveSticks(env: Env, s: Sys, key: string)
    requires Proper(env, s) && ProperKey(env, key) && Gone(env, s, key)
    ensures OnlyAnswers(env, s, key, None) <==> NothingLate(env, s, key)
  {
    SettledIff(env, s, key, None);
  }
}

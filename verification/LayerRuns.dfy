/**
 Runs of the two layers: what every get answers when the calls for one key keep
 out of each other's way, what happens when they do not, and how a call that
 runs alone is a run of these steps.
 */
module LayerRuns {
  import opened Prelude
  import opened CacheCodec
  import opened PathLayout
  import opened FileCache
  import opened LayerRaces

  /** The map the cache may forget from: what was last put under each key and not removed since. */
  type Latest = map<string, CacheObject>

  function Recorded(latest: Latest, e: Event): Latest {
    match e
    case HotPut(_, key, o) => latest[key := o]
    case HotRemove(_, key) => latest - {key}
    case _ => latest
  }

  function LatestAfter(latest: Latest, events: seq<Event>): Latest
    decreases |events|
  {
    if events == [] then latest else LatestAfter(Recorded(latest, events[0]), events[1..])
  }

  function Want(latest: Latest, key: string): Option<CacheObject> {
    if key in latest then Some(latest[key]) else None
  }

  // ---- calls for one key that keep apart ----

  /** A get of the key is between its read and an admission. */
  ghost predicate GetWaits(env: Env, s: Sys, key: string) {
    exists r :: r in s.gets && s.gets[r].key == key && Admissible(env.cfg, s.gets[r].obj)
  }

  ghost predicate PutRuns(s: Sys, key: string) {
    exists w :: w in s.puts && s.puts[w].key == key
  }

  ghost predicate RemoveRuns(s: Sys, key: string) {
    exists w :: w in s.removes && s.removes[w] == key
  }

  ghost predicate Changing(s: Sys, key: string) {
    PutRuns(s, key) || RemoveRuns(s, key)
  }

  /**
   The calls for a key keep apart: a put or remove starts when no other one runs and no get waits to
   admit, and a file is read when neither runs. A put leaves no older copy: not in memory by the
   admission limit, not on disk by a skipped write; a remove that fails had no file to leave.
   */
  ghost predicate Apart(env: Env, s: Sys, e: Event) {
    Enabled(env, s, e) &&
    match e
    case HotPut(_, key, o) =>
      && !Changing(s, key) && !GetWaits(env, s, key)
      && Agrees(Encode(o), Some(o)) && (Admissible(env.cfg, o) || key !in s.hot || s.hot[key] == o)
    case SkipPut(w) => FileOf(env, s.puts[w].key) !in s.disk
    case HotRemove(_, key) => !Changing(s, key) && !GetWaits(env, s, key)
    case FailRemove(w) => FileOf(env, s.removes[w]) !in s.disk
    case ReadFile(_, key, _) => !Changing(s, key)
    case _ => true
  }

  ghost predicate AllApart(env: Env, s: Sys, events: seq<Event>)
    decreases |events|
  {
    events == [] || (Apart(env, s, events[0]) && AllApart(env, Apply(env, s, events[0]), events[1..]))
  }

  lemma {:induction false} ApartIsPossible(env: Env, s: Sys, events: seq<Event>)
    requires AllApart(env, s, events)
    ensures Possible(env, s, events)
    decreases |events|
  {
    if events != [] {
      ApartIsPossible(env, Apply(env, s, events[0]), events[1..]);
    }
  }

  // ---- the invariant of a key ----

  /** A put in flight is the latest, alone, and no other object of its key is in memory. */
  ghost predicate PutAlone(env: Env, latest: Latest, s: Sys, key: string) {
    forall w :: w in s.puts && s.puts[w].key == key ==>
      && Want(latest, key) == Some(s.puts[w].obj) && Agrees(Encode(s.puts[w].obj), Some(s.puts[w].obj))
      && (key in s.hot ==> s.hot[key] == s.puts[w].obj)
      && !GetWaits(env, s, key) && !RemoveRuns(s, key)
      && (forall v :: v in s.puts && v != w ==> s.puts[v].key != key)
  }

  /** A remove in flight is alone and memory has no copy. */
  ghost predicate RemoveAlone(env: Env, latest: Latest, s: Sys, key: string) {
    forall w :: w in s.removes && s.removes[w] == key ==>
      && key !in latest && key !in s.hot && !GetWaits(env, s, key) && !PutRuns(s, key)
      && (forall v :: v in s.removes && v != w ==> s.removes[v] != key)
  }

  ghost predicate KeyInv(env: Env, latest: Latest, s: Sys, key: string) {
    && PutAlone(env, latest, s, key) && RemoveAlone(env, latest, s, key)
    && (!Changing(s, key) ==> Settled(env, s, key, Want(latest, key)) && (key in s.hot ==>
        Want(latest, key) == Some(s.hot[key])))
  }

  // ---- each step keeps it ----

  lemma OwnHotPut(env: Env, latest: Latest, s: Sys, e: Event)
    requires e.HotPut? && Apart(env, s, e) && KeyInv(env, latest, s, e.key)
    ensures KeyInv(env, Recorded(latest, e), Apply(env, s, e), e.key)
  {
    var t := Apply(env, s, e);
    assert t.puts[e.w].key == e.key;
    assert PutRuns(t, e.key);
    assert GetWaits(env, t, e.key) <==> GetWaits(env, s, e.key);
    assert RemoveRuns(t, e.key) <==> RemoveRuns(s, e.key);
  }

  lemma OwnHotRemove(env: Env, latest: Latest, s: Sys, e: Event)
    requires e.HotRemove? && Apart(env, s, e) && KeyInv(env, latest, s, e.key)
    ensures KeyInv(env, Recorded(latest, e), Apply(env, s, e), e.key)
  {
    var t := Apply(env, s, e);
    assert t.removes[e.w] == e.key;
    assert RemoveRuns(t, e.key);
    assert GetWaits(env, t, e.key) <==> GetWaits(env, s, e.key);
    assert PutRuns(t, e.key) <==> PutRuns(s, e.key);
  }

  /** A put that ends, written or with no file to leave behind. */
  lemma OwnPutEnds(env: Env, latest: Latest, s: Sys, e: Event, key: string)
    requires KeyInv(env, latest, s, key) && (e.DiskPut? || e.SkipPut?) && Apart(env, s, e) && s.puts[e.w].key == key
    ensures KeyInv(env, latest, Apply(env, s, e), key)
  {
    var t := Apply(env, s, e);
    assert !GetWaits(env, s, key) && !RemoveRuns(s, key);
    assert forall v :: v in t.puts ==> v in s.puts && v != e.w;
    assert !PutRuns(t, key);
    assert t.gets == s.gets && t.removes == s.removes && t.hot == s.hot;
    assert !GetWaits(env, t, key) && !RemoveRuns(t, key);
  }

  lemma OwnRemoveEnds(env: Env, latest: Latest, s: Sys, e: Event, key: string)
    requires KeyInv(env, latest, s, key) && (e.DiskRemove? || e.FailRemove?) && Apart(env, s, e)
        && s.removes[e.w] == key
    ensures KeyInv(env, latest, Apply(env, s, e), key)
  {
    var t := Apply(env, s, e);
    assert !GetWaits(env, s, key) && !PutRuns(s, key);
    assert forall v :: v in t.removes ==> v in s.removes && v != e.w;
    assert t.gets == s.gets && t.puts == s.puts && t.hot == s.hot;
    assert !RemoveRuns(t, key) && !GetWaits(env, t, key) && !PutRuns(t, key);
  }

  lemma OwnRead(env: Env, latest: Latest, s: Sys, e: Event)
    requires e.ReadFile? && Apart(env, s, e) && KeyInv(env, latest, s, e.key)
    ensures KeyInv(env, latest, Apply(env, s, e), e.key)
  {
    ReadFileKeepsSettled(env, s, e, e.key, Want(latest, e.key));
    var t := Apply(env, s, e);
    assert t.puts == s.puts && t.removes == s.removes;
    assert !PutRuns(t, e.key) && !RemoveRuns(t, e.key);
  }

  lemma OwnAdmit(env: Env, latest: Latest, s: Sys, e: Event, key: string)
    requires KeyInv(env, latest, s, key) && e.Admit? && Enabled(env, s, e) && s.gets[e.r].key == key
    ensures KeyInv(env, latest, Apply(env, s, e), key)
  {
    var t := Apply(env, s, e);
    assert t.puts == s.puts && t.removes == s.removes;
    assert PutRuns(t, key) <==> PutRuns(s, key);
    assert RemoveRuns(t, key) <==> RemoveRuns(s, key);
    assert GetWaits(env, t, key) ==> GetWaits(env, s, key);
    if Admissible(env.cfg, s.gets[e.r].obj) {
      assert GetWaits(env, s, key);
    }
    if !Changing(s, key) {
      AdmitKeepsSettled(env, s, e, key, Want(latest, key));
    }
  }

  /** The step is for another key, or only loses. */
  predicate Elsewhere(s: Sys, e: Event, key: string) {
    match e
    case HotPut(_, k, _) => k != key
    case DiskPut(w, _) => w in s.puts && s.puts[w].key != key
    case SkipPut(w) => w in s.puts && s.puts[w].key != key
    case HotRemove(_, k) => k != key
    case DiskRemove(w) => w in s.removes && s.removes[w] != key
    case FailRemove(w) => w in s.removes && s.removes[w] != key
    case ReadFile(_, k, _) => k != key
    case Admit(r) => r in s.gets && s.gets[r].key != key
    case DropGet(_) => true
    case Lose(_, _) => true
  }

  /** Seen from one key: the same calls in flight, at most fewer gets, memory at most lost. */
  ghost predicate Untouched(env: Env, s: Sys, t: Sys, key: string) {
    && (forall w :: (w in s.puts && s.puts[w].key == key) <==> (w in t.puts && t.puts[w].key == key))
    && (forall w :: w in s.puts && s.puts[w].key == key && w in t.puts ==> t.puts[w] == s.puts[w])
    && (forall w :: (w in s.removes && s.removes[w] == key) <==> (w in t.removes && t.removes[w] == key))
    && (forall r :: r in t.gets && t.gets[r].key == key ==> r in s.gets && s.gets[r] == t.gets[r])
    && (key in t.hot ==> key in s.hot && t.hot[key] == s.hot[key])
  }

  lemma ElsewhereIsUntouched(env: Env, s: Sys, e: Event, key: string)
    requires Enabled(env, s, e) && Elsewhere(s, e, key)
    ensures Untouched(env, s, Apply(env, s, e), key)
    ensures !(e.HotPut? && e.key == key)
  {
  }

  lemma UntouchedKeeps(env: Env, latest: Latest, later: Latest, s: Sys, t: Sys, key: string)
    requires KeyInv(env, latest, s, key) && Untouched(env, s, t, key) && Want(later, key) == Want(latest, key)
    requires Settled(env, s, key, Want(latest, key)) ==> Settled(env, t, key, Want(latest, key))
    ensures KeyInv(env, later, t, key)
  {
    assert GetWaits(env, t, key) ==> GetWaits(env, s, key);
    assert PutRuns(t, key) <==> PutRuns(s, key);
    assert RemoveRuns(t, key) <==> RemoveRuns(s, key);
    assert key in later <==> key in latest;
  }

  lemma OthersStep(env: Env, latest: Latest, s: Sys, e: Event, key: string)
    requires Proper(env, s) && ProperKey(env, key) && KeyInv(env, latest, s, key)
    requires Enabled(env, s, e) && Elsewhere(s, e, key)
    ensures KeyInv(env, Recorded(latest, e), Apply(env, s, e), key)
  {
    ElsewhereIsUntouched(env, s, e, key);
    if Settled(env, s, key, Want(latest, key)) {
      StepKeepsSettled(env, s, e, key, Want(latest, key));
    }
    UntouchedKeeps(env, latest, Recorded(latest, e), s, Apply(env, s, e), key);
  }

  lemma StepKeepsKeyInv(env: Env, latest: Latest, s: Sys, e: Event, key: string)
    requires Proper(env, s) && ProperKey(env, key) && KeyInv(env, latest, s, key) && Apart(env, s, e)
    ensures KeyInv(env, Recorded(latest, e), Apply(env, s, e), key)
  {
    if Elsewhere(s, e, key) {
      OthersStep(env, latest, s, e, key);
    } else {
      match e
      case HotPut(_, _, _) => OwnHotPut(env, latest, s, e);
      case DiskPut(_, _) => OwnPutEnds(env, latest, s, e, key);
      case SkipPut(_) => OwnPutEnds(env, latest, s, e, key);
      case HotRemove(_, _) => OwnHotRemove(env, latest, s, e);
      case DiskRemove(_) => OwnRemoveEnds(env, latest, s, e, key);
      case FailRemove(_) => OwnRemoveEnds(env, latest, s, e, key);
      case ReadFile(_, _, _) => OwnRead(env, latest, s, e);
      case Admit(_) => OwnAdmit(env, latest, s, e, key);
    }
  }

  lemma {:induction false} RunKeepsKeyInv(env: Env, latest: Latest, s: Sys, events: seq<Event>, key: string)
    requires Proper(env, s) && ProperKey(env, key) && KeyInv(env, latest, s, key) && AllApart(env, s, events)
    ensures Possible(env, s, events)
    ensures KeyInv(env, LatestAfter(latest, events), After(env, s, events), key)
    decreases |events|
  {
    ApartIsPossible(env, s, events);
    if events != [] {
      StepKeepsProper(env, s, events[0]);
      StepKeepsKeyInv(env, latest, s, events[0], key);
      RunKeepsKeyInv(env, Recorded(latest, events[0]), Apply(env, s, events[0]), events[1..], key);
    }
  }

  /**
   Memory over disk refines one forgetful map under concurrency: at every point of every interleaving
   in which the calls for each key keep apart, a get of a key no put or remove is changing answers the
   latest object put under it, or misses.
   */
  lemma GetReturnsLatestOrMisses(env: Env, events: seq<Event>, key: string, o: CacheObject)
    requires AllApart(env, EMPTY, events) && ProperKey(env, key)
    ensures Possible(env, EMPTY, events)
    ensures var s := After(env, EMPTY, events);
            !Changing(s, key) && CanAnswer(env, s, key, o) ==> Want(LatestAfter(map[], events), key) == Some(o)
  {
    RunKeepsKeyInv(env, map[], EMPTY, events, key);
  }

  // ---- one side of the admission limit ----

  /**
   As before, with the freshness of a put read off the calls: one side of the limit for each key, no
   skipped write.
   */
  ghost predicate OneSided(env: Env, side: string -> bool, s: Sys, e: Event) {
    Enabled(env, s, e) &&
    match e
    case HotPut(_, key, o) =>
      !Changing(s, key) && !GetWaits(env, s, key) && Representable(o) && (Admissible(env.cfg, o) <==> side(key))
    case SkipPut(_) => false
    case HotRemove(_, key) => !Changing(s, key) && !GetWaits(env, s, key)
    case FailRemove(_) => false
    case ReadFile(_, key, _) => !Changing(s, key)
    case _ => true
  }

  ghost predicate AllOneSided(env: Env, side: string -> bool, s: Sys, events: seq<Event>)
    decreases |events|
  {
    events == [] || (OneSided(env, side, s, events[0]) && AllOneSided(env, side, Apply(env, s, events[0]), events[1..]))
  }

  /** Memory holds, and late admissions bring, only keys of the memory side. */
  ghost predicate Sided(env: Env, side: string -> bool, s: Sys) {
    && (forall key :: key in s.hot ==> side(key))
    && (forall r :: r in s.gets && Admissible(env.cfg, s.gets[r].obj) ==> side(s.gets[r].key))
    && (forall w :: w in s.puts ==> Admissible(env.cfg, s.puts[w].obj) ==> side(s.puts[w].key))
    && (forall key :: ProperKey(env, key) && FileOf(env, key) in s.disk && Decode(s.disk[FileOf(env, key)].data).Ok? ==>
          Admissible(env.cfg, Decode(s.disk[FileOf(env, key)].data).value) ==> side(key))
  }

  /** On its side a put leaves no older copy behind. */
  lemma OneSidedPutsAreFresh(env: Env, side: string -> bool, s: Sys, e: Event)
    requires OneSided(env, side, s, e) && Sided(env, side, s)
    ensures Apart(env, s, e)
  {
    if e.HotPut? {
      DecodeUndoesEncode(e.obj);
    }
  }

  lemma DiskPutKeepsSides(env: Env, side: string -> bool, s: Sys, e: Event)
    requires OneSided(env, side, s, e) && e.DiskPut? && Sided(env, side, s) && Proper(env, s)
    requires Agrees(Encode(s.puts[e.w].obj), Some(s.puts[e.w].obj))
    ensures Sided(env, side, Apply(env, s, e))
  {
    var t := Apply(env, s, e);
    forall key | ProperKey(env, key) && FileOf(env, key) in t.disk && Decode(t.disk[FileOf(env, key)].data).Ok?
                 && Admissible(env.cfg, Decode(t.disk[FileOf(env, key)].data).value)
      ensures side(key)
    {
      if key != s.puts[e.w].key {
        FilesApart(env, key, s.puts[e.w].key);
      }
    }
  }

  lemma ReadKeepsSides(env: Env, side: string -> bool, s: Sys, e: Event)
    requires OneSided(env, side, s, e) && e.ReadFile? && Sided(env, side, s)
    ensures Sided(env, side, Apply(env, s, e))
  {
    var t := Apply(env, s, e);
    assert forall p :: p in t.disk ==> p in s.disk && t.disk[p].data == s.disk[p].data;
  }

  lemma OtherStepsKeepSides(env: Env, side: string -> bool, s: Sys, e: Event)
    requires OneSided(env, side, s, e) && !e.DiskPut? && !e.ReadFile? && Sided(env, side, s)
    ensures Sided(env, side, Apply(env, s, e))
  {
  }

  /** What puts in flight will write reads back as what was put. */
  ghost predicate PutsReadBack(s: Sys) {
    forall w :: w in s.puts ==> Agrees(Encode(s.puts[w].obj), Some(s.puts[w].obj))
  }

  lemma StepKeepsSides(env: Env, side: string -> bool, s: Sys, e: Event)
    requires OneSided(env, side, s, e) && Sided(env, side, s) && Proper(env, s) && PutsReadBack(s)
    ensures Sided(env, side, Apply(env, s, e)) && PutsReadBack(Apply(env, s, e))
  {
    match e
    case DiskPut(_, _) => DiskPutKeepsSides(env, side, s, e);
    case ReadFile(_, _, _) => ReadKeepsSides(env, side, s, e);
    case HotPut(_, _, o) =>
      DecodeUndoesEncode(o);
      OtherStepsKeepSides(env, side, s, e);
    case _ => OtherStepsKeepSides(env, side, s, e);
  }

  lemma {:induction false} OneSidedIsApart(env: Env, side: string -> bool, s: Sys, events: seq<Event>)
    requires AllOneSided(env, side, s, events) && Sided(env, side, s) && Proper(env, s) && PutsReadBack(s)
    ensures AllApart(env, s, events)
    decreases |events|
  {
    if events != [] {
      OneSidedPutsAreFresh(env, side, s, events[0]);
      StepKeepsSides(env, side, s, events[0]);
      StepKeepsProper(env, s, events[0]);
      OneSidedIsApart(env, side, Apply(env, s, events[0]), events[1..]);
    }
  }

  /**
   In terms of the calls alone: if the objects put under each key stay on one side of the admission
   limit, no write is skipped and the calls for a key keep apart, every get of a key that is not being
   changed answers the latest object put under it or misses, in every interleaving.
   */
  lemma OneSidedGetsReturnLatest(env: Env, side: string -> bool, events: seq<Event>, key: string, o: CacheObject)
    requires AllOneSided(env, side, EMPTY, events) && ProperKey(env, key)
    ensures Possible(env, EMPTY, events)
    ensures var s := After(env, EMPTY, events);
            !Changing(s, key) && CanAnswer(env, s, key, o) ==> Want(LatestAfter(map[], events), key) == Some(o)
  {
    OneSidedIsApart(env, side, EMPTY, events);
    GetReturnsLatestOrMisses(env, events, key, o);
  }
}

/**
 The byte counter and the byte budget of the file cache: when the counter is
 exact, what a write evicts, and when the budget holds afterwards.
 */
module CacheAccounting {
  import opened Prelude
  import opened CacheCodec
  import opened PathLayout
  import opened StableSort
  import opened FileCache
  import opened CacheRuns

  /** Bytes on disk. */
  ghost function Total(d: Disk): nat {
    if d == map[] then 0
    else
      var p :| p in d;
      |d[p].data| + Total(d - {p})
  }

  ghost predicate Exact(s: Store) {
    s.currentSize == Total(s.disk)
  }

  // ---- sums over the directory ----

  lemma {:induction false} TotalRemove(d: Disk, p: Path)
    ensures Total(d) == LenOf(d, p) + Total(d - {p})
    decreases |d|
  {
    if p !in d {
      assert d - {p} == d;
    } else {
      var q :| q in d && Total(d) == |d[q].data| + Total(d - {q});
      if q != p {
        TotalRemove(d - {q}, p);
        TotalRemove(d - {p}, q);
        assert d - {q} - {p} == d - {p} - {q};
      }
    }
  }

  lemma TotalWrite(d: Disk, p: Path, f: DiskFile)
    ensures Total(d[p := f]) + LenOf(d, p) == Total(d) + |f.data|
  {
    TotalRemove(d, p);
    TotalRemove(d[p := f], p);
    assert d[p := f] - {p} == d - {p};
  }

  lemma OneMoreRemoval(s: Store, files: seq<Path>, last: Path)
    requires Exact(RemoveFiles(s, files)) && last in s.disk && last !in files
    ensures Exact(RemoveFiles(s, files + [last]))
    ensures LenOf(s.disk, last) <= CounterAfter(s.disk, files, s.currentSize)
  {
    RemoveOneMore(s, files, last);
    TotalRemove(s.disk - ToSet(files), last);
  }

  /** With an exact counter, removing distinct files keeps it exact and no subtraction clips. */
  lemma {:induction false} CounterFollowsRemovals(s: Store, files: seq<Path>)
    requires Exact(s) && NoDuplicates(files)
    requires forall p :: p in files ==> p in s.disk
    ensures Exact(RemoveFiles(s, files))
    ensures files != [] ==>
      LenOf(s.disk, files[|files| - 1]) <= CounterAfter(s.disk, files[..|files| - 1], s.currentSize)
  {
    if files == [] {
      RemoveNone(s);
    } else {
      var front, last := files[..|files| - 1], files[|files| - 1];
      assert files == front + [last];
      CounterFollowsRemovals(s, front);
      OneMoreRemoval(s, front, last);
    }
  }

  lemma {:induction false} SumIgnoresOthers(d: Disk, p: Path, files: seq<Path>)
    requires p !in files
    ensures SumOfLens(d - {p}, files) == SumOfLens(d, files)
  {
    if files != [] {
      SumIgnoresOthers(d, p, files[1..]);
    }
  }

  /** The walk at construction makes the counter exact. */
  lemma {:induction false} ListingSum(d: Disk, listing: seq<Path>)
    requires IsListing(d, listing, AnyPath)
    ensures SumOfLens(d, listing) == Total(d)
    decreases |listing|
  {
    if listing == [] {
      assert forall p :: p in d ==> AnyPath(p);
      assert d == map[];
    } else {
      var p := listing[0];
      assert listing == [p] + listing[1..];
      WalkRest(d, listing);
      ListingSum(d - {p}, listing[1..]);
      SumIgnoresOthers(d, p, listing[1..]);
      TotalRemove(d, p);
    }
  }

  lemma WalkRest(d: Disk, listing: seq<Path>)
    requires IsListing(d, listing, AnyPath) && listing != []
    ensures listing[0] !in listing[1..]
    ensures IsListing(d - {listing[0]}, listing[1..], AnyPath)
  {
    assert listing == [listing[0]] + listing[1..];
    assert forall p :: p in d ==> AnyPath(p);
  }

  // ---- what a write evicts ----

  lemma VictimsAreFiles(cfg: Config, s: Store, env: PutEnv, path: Path, bytes: seq<Byte>)
    requires IsListing(s.disk, env.listing, NotTmp)
    ensures var v := WritePlan(cfg, s, env, path, bytes).victims;
            NoDuplicates(v) && forall p :: p in v ==> p in s.disk && !IsTmp(p)
  {
    var files := LruOrder(s.disk, env.listing);
    SortKeepsMembers(env.listing, AccessTime(s.disk));
    SortByKeySorts(env.listing, AccessTime(s.disk));
    MultisetDistinct(env.listing, files);
  }

  lemma MultisetDistinct<T>(s: seq<T>, t: seq<T>)
    requires NoDuplicates(s) && multiset(s) == multiset(t)
    ensures NoDuplicates(t)
  {
    forall i, j | 0 <= i < j < |t| ensures t[i] != t[j] {
      if t[i] == t[j] {
        var x := t[i];
        assert t == t[..i] + [x] + t[i + 1..j] + [x] + t[j + 1..];
        assert multiset(t)[x] >= 2;
        DistinctCount(s, x);
        assert false;
      }
    }
  }

  lemma {:induction false} DistinctCount<T>(s: seq<T>, x: T)
    requires NoDuplicates(s)
    ensures multiset(s)[x] <= 1
  {
    if s != [] {
      DistinctCount(s[1..], x);
      assert s == [s[0]] + s[1..];
      assert s[0] !in s[1..];
      assert s[0] !in multiset(s[1..]);
    }
  }

  /** Nothing spared by a prefix of the access order was used longer ago than something in it. */
  lemma LruSpares(d: Disk, listing: seq<Path>, k: nat, v: Path, p: Path)
    requires k <= |LruOrder(d, listing)|
    requires v in LruOrder(d, listing)[..k] && p in listing && p !in LruOrder(d, listing)[..k]
    ensures AccessTime(d)(v) <= AccessTime(d)(p)
  {
    SortKeepsMembers(listing, AccessTime(d));
    SortByKeySorts(listing, AccessTime(d));
    var files := LruOrder(d, listing);
    var i :| 0 <= i < k && files[i] == v;
    var j :| 0 <= j < |files| && files[j] == p;
    assert j >= k;
  }

  lemma CounterOfPrefix(s: Store, listing: seq<Path>, j: nat)
    requires Exact(s) && IsListing(s.disk, listing, NotTmp)
    requires j <= |LruOrder(s.disk, listing)|
    ensures var gone := LruOrder(s.disk, listing)[..j];
            CounterAfter(s.disk, gone, s.currentSize) == Total(s.disk - ToSet(gone)) <= Total(s.disk)
  {
    var files := LruOrder(s.disk, listing);
    SortKeepsMembers(listing, AccessTime(s.disk));
    SortByKeySorts(listing, AccessTime(s.disk));
    MultisetDistinct(listing, files);
    CounterFollowsRemovals(s, files[..j]);
    TotalShrinks(s.disk, ToSet(files[..j]));
  }

  /**
   Eviction is least-recently-used and minimal: with an exact counter the victims are a prefix of the
   access order, nothing spared was used longer ago than something evicted, after any shorter prefix
   the budget would still be exceeded, and unless everything went it holds afterwards.
   */
  lemma EvictionIsLru(cfg: Config, s: Store, env: PutEnv, path: Path, bytes: seq<Byte>)
    requires Exact(s) && IsListing(s.disk, env.listing, NotTmp)
    requires Total(s.disk) + |bytes| <= U64_MAX
    requires WritePlan(cfg, s, env, path, bytes).victims != []
    ensures var files := LruOrder(s.disk, env.listing);
            var victims := WritePlan(cfg, s, env, path, bytes).victims;
            var need := Growth(s.disk, path, bytes);
            && victims <= files && (forall v :: v in victims ==> v in s.disk)
            && (forall v, p :: v in victims && p in env.listing && p !in victims ==>
                  s.disk[v].accessed <= s.disk[p].accessed)
            && (forall j :: 0 <= j < |victims| ==> Total(s.disk - ToSet(files[..j])) + need > cfg.maxSize)
            && (|victims| < |files| ==> Total(s.disk - ToSet(victims)) + need <= cfg.maxSize)
  {
    var victims := WritePlan(cfg, s, env, path, bytes).victims;
    VictimsStop(cfg, s, env, path, bytes, |victims|);
    VictimsAreFiles(cfg, s, env, path, bytes);
    forall v, p | v in victims && p in env.listing && p !in victims
      ensures s.disk[v].accessed <= s.disk[p].accessed
    {
      LruSpares(s.disk, env.listing, |victims|, v, p);
    }
  }

  lemma {:induction false} TotalShrinks(d: Disk, gone: set<Path>)
    ensures Total(d - gone) <= Total(d)
    decreases |gone|
  {
    if gone == {} {
      assert d - gone == d;
    } else {
      var p :| p in gone;
      TotalShrinks(d, gone - {p});
      TotalRemove(d - (gone - {p}), p);
      assert d - gone == d - (gone - {p}) - {p};
    }
  }

  // ---- when a write evicts its own target ----

  /**
   Read off the directory before the call: eviction may run, and even with everything used before the
   target gone the growth would not fit.
   */
  ghost predicate EvictsTarget(cfg: Config, d: Disk, env: PutEnv, path: Path, bytes: seq<Byte>) {
    var files, need := LruOrder(d, env.listing), Growth(d, path, bytes);
    && WriteAdmitted(cfg, env) && cfg.maxSize > 0 && !env.evicting && need <= cfg.maxSize
    && exists j :: 0 <= j < |files| && files[j] == path && Total(d - ToSet(files[..j])) + need > cfg.maxSize
  }

  /** Read off the directory too: it never fits until nothing that has bytes is left. */
  ghost predicate EvictsEverything(cfg: Config, d: Disk, env: PutEnv, path: Path, bytes: seq<Byte>) {
    var files, need := LruOrder(d, env.listing), Growth(d, path, bytes);
    exists k :: 0 <= k <= |files| && Total(d - ToSet(files[..k])) == 0
                && forall j :: 0 <= j < k ==> Total(d - ToSet(files[..j])) + need > cfg.maxSize
  }

  lemma LongerPrefixLeavesLess(d: Disk, files: seq<Path>, j: nat, k: nat)
    requires j <= k <= |files|
    ensures Total(d - ToSet(files[..k])) <= Total(d - ToSet(files[..j])) <= Total(d)
  {
    TotalShrinks(d, ToSet(files[..j]));
    TotalShrinks(d - ToSet(files[..j]), ToSet(files[..k]));
    assert files[..j] == files[..k][..j];
    assert forall p :: p in files[..j] ==> p in files[..k];
    assert d - ToSet(files[..j]) - ToSet(files[..k]) == d - ToSet(files[..k]);
  }

  /** The counter test of the deletion loop, in bytes on disk. */
  lemma OverIsTotal(cfg: Config, s: Store, env: PutEnv, path: Path, bytes: seq<Byte>, j: nat)
    requires Exact(s) && IsListing(s.disk, env.listing, NotTmp)
    requires Total(s.disk) + |bytes| <= U64_MAX && j <= |LruOrder(s.disk, env.listing)|
    ensures var files, need := LruOrder(s.disk, env.listing), Growth(s.disk, path, bytes);
            Over(cfg, CounterAfter(s.disk, files[..j], s.currentSize), need) <==>
              Total(s.disk - ToSet(files[..j])) + need > cfg.maxSize
  {
    CounterOfPrefix(s, env.listing, j);
  }

  /** The eviction takes the file being overwritten exactly when the directory says so beforehand. */
  lemma TargetEvictedIff(cfg: Config, s: Store, env: PutEnv, path: Path, bytes: seq<Byte>)
    requires Exact(s) && IsListing(s.disk, env.listing, NotTmp)
    requires Total(s.disk) + |bytes| <= U64_MAX
    ensures path in WritePlan(cfg, s, env, path, bytes).victims <==> EvictsTarget(cfg, s.disk, env, path, bytes)
  {
    var files, need := LruOrder(s.disk, env.listing), Growth(s.disk, path, bytes);
    var victims := WritePlan(cfg, s, env, path, bytes).victims;
    if path in victims {
      var j :| 0 <= j < |victims| && victims[j] == path;
      assert files[j] == path && Over(cfg, CounterAfter(s.disk, files[..j], s.currentSize), need);
      OverIsTotal(cfg, s, env, path, bytes, j);
    }
    if EvictsTarget(cfg, s.disk, env, path, bytes) {
      var j :| 0 <= j < |files| && files[j] == path && Total(s.disk - ToSet(files[..j])) + need > cfg.maxSize;
      var k := VictimCount(cfg, s.disk, files, s.currentSize, need);
      LongerPrefixLeavesLess(s.disk, files, 0, j);
      assert victims == files[..k];
      OverIsTotal(cfg, s, env, path, bytes, k);
      if k <= j {
        LongerPrefixLeavesLess(s.disk, files, k, j);
        assert false;
      }
      assert victims[j] == path;
    }
  }

  lemma NothingLeftIff(cfg: Config, s: Store, env: PutEnv, path: Path, bytes: seq<Byte>)
    requires Exact(s) && IsListing(s.disk, env.listing, NotTmp)
    requires Total(s.disk) + |bytes| <= U64_MAX && EvictsTarget(cfg, s.disk, env, path, bytes)
    ensures Total(s.disk - ToSet(WritePlan(cfg, s, env, path, bytes).victims)) == 0 <==>
      EvictsEverything(cfg, s.disk, env, path, bytes)
  {
    var files, need := LruOrder(s.disk, env.listing), Growth(s.disk, path, bytes);
    var k := VictimCount(cfg, s.disk, files, s.currentSize, need);
    TargetEvictedIff(cfg, s, env, path, bytes);
    assert WritePlan(cfg, s, env, path, bytes).victims == files[..k];
    forall j | 0 <= j < k ensures Total(s.disk - ToSet(files[..j])) + need > cfg.maxSize {
      assert Over(cfg, CounterAfter(s.disk, files[..j], s.currentSize), need);
      OverIsTotal(cfg, s, env, path, bytes, j);
    }
    OverIsTotal(cfg, s, env, path, bytes, k);
    if EvictsEverything(cfg, s.disk, env, path, bytes) {
      var m :| 0 <= m <= |files| && Total(s.disk - ToSet(files[..m])) == 0
               && forall j :: 0 <= j < m ==> Total(s.disk - ToSet(files[..j])) + need > cfg.maxSize;
      assert k == m;
    }
  }

  // ---- the counter across a write ----

  lemma WriteShortfall(cfg: Config, s: Store, env: PutEnv, path: Path, bytes: seq<Byte>)
    requires Exact(s) && IsListing(s.disk, env.listing, NotTmp)
    requires Total(s.disk) + |bytes| <= U64_MAX
    requires WritePlan(cfg, s, env, path, bytes).ok
    ensures var victims := WritePlan(cfg, s, env, path, bytes).victims;
            var left := Total(s.disk - ToSet(victims));
            var t := AfterWrite(cfg, s, env, path, bytes);
            && t.currentSize == Total(t.disk) - (if path in victims then Min(LenOf(s.disk, path), left) else 0)
            && (path !in victims ==> LenOf(s.disk, path) <= CounterAfter(s.disk, victims, s.currentSize))
  {
    var victims := WritePlan(cfg, s, env, path, bytes).victims;
    VictimsAreFiles(cfg, s, env, path, bytes);
    CounterFollowsRemovals(s, victims);
    var left := s.disk - ToSet(victims);
    TotalShrinks(s.disk, ToSet(victims));
    TotalRemove(left, path);
    TotalWrite(left, path, DiskFile(bytes, env.now));
  }

  /**
   The counter after a write is short of the truth by what is subtracted a second time when eviction
   takes the very file being overwritten. So it stays exact if and only if the directory beforehand
   does not put the target among the evicted, or the target is empty, or nothing else has bytes to lose.
   */
  lemma WriteCounter(cfg: Config, s: Store, env: PutEnv, path: Path, bytes: seq<Byte>)
    requires Exact(s) && IsListing(s.disk, env.listing, NotTmp)
    requires Total(s.disk) + |bytes| <= U64_MAX
    ensures var t := AfterWrite(cfg, s, env, path, bytes);
            var left := Total(s.disk - ToSet(WritePlan(cfg, s, env, path, bytes).victims));
            && t.currentSize == Total(t.disk) -
                 (if EvictsTarget(cfg, s.disk, env, path, bytes) then Min(LenOf(s.disk, path), left) else 0)
            && (Exact(t) <==>
                  || !EvictsTarget(cfg, s.disk, env, path, bytes)
                  || LenOf(s.disk, path) == 0
                  || EvictsEverything(cfg, s.disk, env, path, bytes))
  {
    TargetEvictedIff(cfg, s, env, path, bytes);
    if WritePlan(cfg, s, env, path, bytes).ok {
      WriteShortfall(cfg, s, env, path, bytes);
    }
    if EvictsTarget(cfg, s.disk, env, path, bytes) {
      NothingLeftIff(cfg, s, env, path, bytes);
    }
  }

  // ---- the budget across a write ----

  function Temporaries(d: Disk): Disk {
    map p | p in d && IsTmp(p) :: d[p]
  }

  /** Read off the directory: the eviction stops after the first `k` files in access order. */
  ghost predicate StopsAfter(cfg: Config, d: Disk, env: PutEnv, path: Path, bytes: seq<Byte>, k: nat) {
    var files, need := LruOrder(d, env.listing), Growth(d, path, bytes);
    && k <= |files|
    && (forall j :: 0 <= j < k ==> Total(d - ToSet(files[..j])) + need > cfg.maxSize)
    && (if env.evicting then k == 0 else k < |files| ==> Total(d - ToSet(files[..k])) + need <= cfg.maxSize)
  }

  /** The victims of an admitted write are the files before that point, and there is one such point. */
  lemma VictimsStop(cfg: Config, s: Store, env: PutEnv, path: Path, bytes: seq<Byte>, k: nat)
    requires Exact(s) && IsListing(s.disk, env.listing, NotTmp)
    requires Total(s.disk) + |bytes| <= U64_MAX && cfg.maxSize > 0 && WritePlan(cfg, s, env, path, bytes).ok
    ensures StopsAfter(cfg, s.disk, env, path, bytes, k) <==>
      k == |WritePlan(cfg, s, env, path, bytes).victims|
    ensures var files, victims := LruOrder(s.disk, env.listing), WritePlan(cfg, s, env, path, bytes).victims;
            |victims| <= |files| && victims == files[..|victims|]
  {
    var files, need := LruOrder(s.disk, env.listing), Growth(s.disk, path, bytes);
    var n := |WritePlan(cfg, s, env, path, bytes).victims|;
    assert files[..0] == [] && s.disk - ToSet(files[..0]) == s.disk;
    OverIsTotal(cfg, s, env, path, bytes, 0);
    assert CounterAfter(s.disk, files[..0], s.currentSize) == s.currentSize;
    if !env.evicting && Over(cfg, s.currentSize, need) {
      forall j | 0 <= j <= |files|
        ensures Over(cfg, CounterAfter(s.disk, files[..j], s.currentSize), need) <==>
          Total(s.disk - ToSet(files[..j])) + need > cfg.maxSize
      {
        OverIsTotal(cfg, s, env, path, bytes, j);
      }
      if StopsAfter(cfg, s.disk, env, path, bytes, k) {
        VictimCountUnique(cfg, s.disk, files, s.currentSize, need, k);
      }
    }
  }

  /** Read off the directory: the new file fits beside what the eviction leaves, its own target aside. */
  ghost predicate FitsBeside(cfg: Config, d: Disk, env: PutEnv, path: Path, bytes: seq<Byte>) {
    exists k: nat :: StopsAfter(cfg, d, env, path, bytes, k)
                     && Total(d - ToSet(LruOrder(d, env.listing)[..k]) - {path}) + |bytes| <= cfg.maxSize
  }

  lemma FitsBesideVictims(cfg: Config, s: Store, env: PutEnv, path: Path, bytes: seq<Byte>)
    requires Exact(s) && IsListing(s.disk, env.listing, NotTmp)
    requires Total(s.disk) + |bytes| <= U64_MAX && cfg.maxSize > 0 && WritePlan(cfg, s, env, path, bytes).ok
    ensures FitsBeside(cfg, s.disk, env, path, bytes) <==>
      Total(s.disk - ToSet(WritePlan(cfg, s, env, path, bytes).victims) - {path}) + |bytes| <= cfg.maxSize
  {
    var n := |WritePlan(cfg, s, env, path, bytes).victims|;
    VictimsStop(cfg, s, env, path, bytes, n);
    if FitsBeside(cfg, s.disk, env, path, bytes) {
      var k: nat :| StopsAfter(cfg, s.disk, env, path, bytes, k)
                    && Total(s.disk - ToSet(LruOrder(s.disk, env.listing)[..k]) - {path}) + |bytes| <= cfg.maxSize;
      VictimsStop(cfg, s, env, path, bytes, k);
    }
  }

  /**
   When an admitted write ends within the budget, even from an over-budget start: exactly when the new
   file fits beside what the eviction leaves of the directory, its own target aside. Where no other
   eviction runs and the target is not among the evicted, that is exactly when it fits beside the
   temporaries, which are never evicted.
   */
  lemma WriteMeetsBudget(cfg: Config, s: Store, env: PutEnv, path: Path, bytes: seq<Byte>)
    requires Exact(s) && IsListing(s.disk, env.listing, NotTmp)
    requires Total(s.disk) + |bytes| <= U64_MAX
    requires cfg.maxSize > 0 && !IsTmp(path) && WritePlan(cfg, s, env, path, bytes).ok
    ensures Total(AfterWrite(cfg, s, env, path, bytes).disk) <= cfg.maxSize <==>
        FitsBeside(cfg, s.disk, env, path, bytes)
    ensures !env.evicting && !EvictsTarget(cfg, s.disk, env, path, bytes) ==>
      (FitsBeside(cfg, s.disk, env, path, bytes) <==> Total(Temporaries(s.disk)) + |bytes| <= cfg.maxSize)
  {
    var left := s.disk - ToSet(WritePlan(cfg, s, env, path, bytes).victims);
    TotalRemove(left, path);
    TotalWrite(left, path, DiskFile(bytes, env.now));
    FitsBesideVictims(cfg, s, env, path, bytes);
    if !env.evicting && !EvictsTarget(cfg, s.disk, env, path, bytes) {
      SparedTargetMeetsBudget(cfg, s, env, path, bytes);
    }
  }

  lemma SparedTargetMeetsBudget(cfg: Config, s: Store, env: PutEnv, path: Path, bytes: seq<Byte>)
    requires Exact(s) && IsListing(s.disk, env.listing, NotTmp)
    requires Total(s.disk) + |bytes| <= U64_MAX
    requires cfg.maxSize > 0 && !env.evicting && !IsTmp(path)
    requires WritePlan(cfg, s, env, path, bytes).ok
    requires !EvictsTarget(cfg, s.disk, env, path, bytes)
    ensures Total(AfterWrite(cfg, s, env, path, bytes).disk) <= cfg.maxSize
            <==> Total(Temporaries(s.disk)) + |bytes| <= cfg.maxSize
  {
    var victims := WritePlan(cfg, s, env, path, bytes).victims;
    var left := s.disk - ToSet(victims);
    TargetEvictedIff(cfg, s, env, path, bytes);
    RoomAfterEviction(cfg, s, env, path, bytes);
    TotalRemove(left, path);
    TotalWrite(left, path, DiskFile(bytes, env.now));
    VictimsAreFiles(cfg, s, env, path, bytes);
    TemporariesSurvive(s.disk, victims, path);
  }

  /** After the evictions there is room for the growth, or only temporaries are left. */
  lemma RoomAfterEviction(cfg: Config, s: Store, env: PutEnv, path: Path, bytes: seq<Byte>)
    requires Exact(s) && IsListing(s.disk, env.listing, NotTmp)
    requires Total(s.disk) + |bytes| <= U64_MAX
    requires cfg.maxSize > 0 && !env.evicting && !IsTmp(path)
    requires WritePlan(cfg, s, env, path, bytes).ok
    requires path !in WritePlan(cfg, s, env, path, bytes).victims
    ensures var left := s.disk - ToSet(WritePlan(cfg, s, env, path, bytes).victims);
            || Total(left) + Growth(s.disk, path, bytes) <= cfg.maxSize
            || (left == Temporaries(s.disk) && path !in s.disk)
  {
    var victims := WritePlan(cfg, s, env, path, bytes).victims;
    if victims == [] {
      assert s.disk - ToSet(victims) == s.disk;
      RoomWithoutEviction(cfg, s, env, path, bytes);
    } else {
      EvictionIsLru(cfg, s, env, path, bytes);
      if |victims| == |LruOrder(s.disk, env.listing)| {
        EverythingEvicted(s.disk, env.listing, victims);
        assert path !in Temporaries(s.disk);
        assert path in s.disk ==> path in ToSet(victims);
      }
    }
  }

  lemma RoomWithoutEviction(cfg: Config, s: Store, env: PutEnv, path: Path, bytes: seq<Byte>)
    requires Exact(s) && IsListing(s.disk, env.listing, NotTmp)
    requires Total(s.disk) + |bytes| <= U64_MAX
    requires cfg.maxSize > 0 && !env.evicting && !IsTmp(path)
    requires WritePlan(cfg, s, env, path, bytes) == Ensured(true, [])
    ensures || Total(s.disk) + Growth(s.disk, path, bytes) <= cfg.maxSize
            || (s.disk == Temporaries(s.disk) && path !in s.disk)
  {
    var need := Growth(s.disk, path, bytes);
    if Over(cfg, s.currentSize, need) {
      var files := LruOrder(s.disk, env.listing);
      assert VictimCount(cfg, s.disk, files, s.currentSize, need) == 0;
      assert CounterAfter(s.disk, files[..0], s.currentSize) == s.currentSize;
      SortByKeySorts(env.listing, AccessTime(s.disk));
      assert env.listing == [];
      assert forall p :: p in s.disk && NotTmp(p) ==> p in env.listing;
    }
  }

  /** Temporaries are never victims, so they stay beside the new file. */
  lemma TemporariesSurvive(d: Disk, victims: seq<Path>, path: Path)
    requires !IsTmp(path) && forall p :: p in victims ==> !IsTmp(p)
    ensures Total(Temporaries(d)) <= Total(d - ToSet(victims) - {path})
  {
    assert Temporaries(d) == Temporaries(d - ToSet(victims) - {path});
    TemporariesBound(d - ToSet(victims) - {path});
  }

  lemma EverythingEvicted(d: Disk, listing: seq<Path>, victims: seq<Path>)
    requires IsListing(d, listing, NotTmp)
    requires victims == LruOrder(d, listing)
    ensures d - ToSet(victims) == Temporaries(d)
  {
    SortKeepsMembers(listing, AccessTime(d));
    assert forall p :: p in d && NotTmp(p) ==> p in listing;
  }

  lemma TemporariesBound(d: Disk)
    ensures Total(Temporaries(d)) <= Total(d)
  {
    var gone := d.Keys - Temporaries(d).Keys;
    assert Temporaries(d) == d - gone;
    TotalShrinks(d, gone);
  }

  /** A new key larger than the whole budget writes nothing and evicts nothing. */
  lemma OversizedWriteIsSkipped(cfg: Config, s: Store, env: PutEnv, path: Path, bytes: seq<Byte>)
    requires cfg.maxSize > 0 && path !in s.disk && |bytes| > cfg.maxSize
    ensures AfterWrite(cfg, s, env, path, bytes) == s
  {
  }

  // ---- whole runs ----

  /** The calls the counter survives: no outside deletions, and no `put` whose target is evicted for it. */
  ghost predicate Counted(cfg: Config, s: Store, op: Op) {
    && WellFormed(s, op)
    && !op.LoseFiles?
    && (op.Put? ==>
          var path := FilePath(cfg.levels, op.namespace, op.key);
          && Total(s.disk) + |Encode(op.obj)| <= U64_MAX
          && !EvictsTarget(cfg, s.disk, op.env, path, Encode(op.obj)))
  }

  lemma StepKeepsCounter(cfg: Config, s: Store, op: Op)
    requires Exact(s) && Counted(cfg, s, op)
    ensures Exact(Step(cfg, s, op))
  {
    match op
    case Put(env, namespace, key, o) =>
      var path := FilePath(cfg.levels, namespace, key);
      var s1 := PutHot(cfg, s, key, o);
      WriteCounter(cfg, s1, env, path, Encode(o));
    case Get(reading, now, namespace, key) =>
      GetKeepsCounter(cfg, s, reading, now, namespace, key);
    case Remove(namespace, key) =>
      TotalRemove(s.disk, FilePath(cfg.levels, namespace, key));
    case Clear(accessBefore, files) =>
      assert forall p :: p in files ==> p in ToSet(files);
      CounterFollowsRemovals(s, files);
    case Purge(namespace, files) =>
      CounterFollowsRemovals(s, files);
    case DropHot(keys) =>
  }

  lemma GetKeepsCounter(cfg: Config, s: Store, reading: nat, now: int, namespace: string, key: string)
    requires Exact(s)
    ensures Exact(AfterGet(cfg, s, reading, now, namespace, key).1)
  {
    var path := FilePath(cfg.levels, namespace, key);
    TotalRemove(s.disk, path);
    if path in s.disk {
      TotalWrite(s.disk, path, DiskFile(s.disk[path].data, now));
    }
  }

  /** Over any run of such calls the counter equals the bytes on disk at every point. */
  lemma {:induction false} CounterExactOverRuns(cfg: Config, s: Store, ops: seq<Op>)
    requires Exact(s)
    requires forall i :: 0 <= i < |ops| ==> Counted(cfg, StateAfter(cfg, s, ops[..i]), ops[i])
    ensures Exact(StateAfter(cfg, s, ops))
    decreases |ops|
  {
    if ops != [] {
      var front := ops[..|ops| - 1];
      forall i | 0 <= i < |front| ensures Counted(cfg, StateAfter(cfg, s, front[..i]), front[i]) {
        assert front[..i] == ops[..i];
        assert Counted(cfg, StateAfter(cfg, s, ops[..i]), ops[i]);
      }
      CounterExactOverRuns(cfg, s, front);
      assert Counted(cfg, StateAfter(cfg, s, ops[..|ops| - 1]), ops[|ops| - 1]);
      StepKeepsCounter(cfg, StateAfter(cfg, s, front), ops[|ops| - 1]);
    }
  }
}

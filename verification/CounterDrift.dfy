/**
 A run after which the byte counter is wrong and the directory over budget: the
 oldest file is overwritten by a larger one and evicted for room.
 */
module CounterDrift {
  import opened Prelude
  import opened CacheCodec
  import opened PathLayout
  import opened StableSort
  import opened FileCache
  import opened CacheRuns
  import opened CacheAccounting

  lemma RoomyWrite(cfg: Config, s: Store, env: PutEnv, path: Path, bytes: seq<Byte>)
    requires WriteAdmitted(cfg, env) && path !in s.disk && |bytes| <= cfg.maxSize
        && s.currentSize + |bytes| <= cfg.maxSize
    requires cfg.maxSize <= U64_MAX
    ensures AfterWrite(cfg, s, env, path, bytes) ==
      s.(disk := s.disk[path := DiskFile(bytes, env.now)], currentSize := s.currentSize + |bytes|)
  {
    RemoveNone(s);
  }

  /** The last step of it: the oldest file is both overwritten and evicted for room. */
  lemma DriftingWrite(cfg: Config, a: Path, b: Path, older: seq<Byte>, other: seq<Byte>, newer: seq<Byte>, env: PutEnv)
    requires a != b && !IsTmp(a) && !IsTmp(b)
    requires |older| == 18 && |other| == 18 && |newer| == 24
    requires cfg.maxSize == 41 && cfg.writingMax == 0 && !env.evicting && env.listing == [a, b]
    ensures var s := Store(map[a := DiskFile(older, 0), b := DiskFile(other, 1)], map[], 36);
            var t := AfterWrite(cfg, s, env, a, newer);
            Exact(s) && IsListing(s.disk, env.listing, NotTmp) && !Exact(t) && Total(t.disk) > cfg.maxSize
  {
    var disk := map[a := DiskFile(older, 0), b := DiskFile(other, 1)];
    var s := Store(disk, map[], 36);
    TotalRemove(disk, a);
    TotalRemove(disk - {a}, b);
    assert disk - {a} - {b} == map[];
    var files := LruOrder(disk, [a, b]);
    TwoInOrder(disk, a, b);
    assert CounterAfter(disk, [], 36) == 36 && files[..0] == [] && files[..1] == [a] && [a][..0] == [];
    assert CounterAfter(disk, [a], 36) == 18;
    VictimCountUnique(cfg, disk, files, 36, 6, 1);
    assert WritePlan(cfg, s, env, a, newer).victims == [a];
    assert disk - ToSet([a]) == disk - {a};
    WriteShortfall(cfg, s, env, a, newer);
    TotalWrite(disk - {a}, a, DiskFile(newer, env.now));
  }

  lemma TwoInOrder(d: Disk, a: Path, b: Path)
    requires AccessTime(d)(a) <= AccessTime(d)(b)
    ensures LruOrder(d, [a, b]) == [a, b]
  {
    var key := AccessTime(d);
    assert [a, b][1..] == [b] && [b][1..] == [];
    assert SortByKey([b], key) == [b];
  }

  lemma ThreeSteps(cfg: Config, s: Store, a: Op, b: Op, c: Op)
    ensures StateAfter(cfg, s, [a, b, c][..0]) == s
    ensures StateAfter(cfg, s, [a, b, c][..1]) == Step(cfg, s, a)
    ensures StateAfter(cfg, s, [a, b, c][..2]) == Step(cfg, Step(cfg, s, a), b)
    ensures StateAfter(cfg, s, [a, b, c]) == Step(cfg, Step(cfg, Step(cfg, s, a), b), c)
  {
    var ops := [a, b, c];
    assert ops[..0] == [] && ops[..1] == [a] && ops[..2] == [a, b];
    assert [a][..0] == [] && [a, b][..1] == [a];
  }

  lemma TwoRoomyPuts(cfg: Config, a: Path, b: Path, older: seq<Byte>, other: seq<Byte>, env1: PutEnv, env2: PutEnv)
    requires a != b && |older| == 18 && |other| == 18 && cfg.maxSize == 41 && cfg.writingMax == 0
    ensures AfterWrite(cfg, AfterWrite(cfg, Store(map[], map[], 0), env1, a, older), env2, b, other) ==
      Store(map[a := DiskFile(older, env1.now), b := DiskFile(other, env2.now)], map[], 36)
    ensures AfterWrite(cfg, Store(map[], map[], 0), env1, a, older) == Store(map[a := DiskFile(older, env1.now)],
        map[], 18)
  {
    RoomyWrite(cfg, Store(map[], map[], 0), env1, a, older);
    RoomyWrite(cfg, Store(map[a := DiskFile(older, env1.now)], map[], 18), env2, b, other);
  }

  /** A small cache without a memory layer. */
  const SMALL: Config := Config([], 0, 0, false, 0, 41)

  function DriftOps(first: CacheObject, second: CacheObject, third: CacheObject): seq<Op> {
    [Put(PutEnv(0, false, [], 0, ""), "", "a", first),
     Put(PutEnv(0, false, [["a"]], 1, ""), "", "b", second),
     Put(PutEnv(0, false, [["a"], ["b"]], 2, ""), "", "a", third)]
  }

  lemma SmallPut(s: Store, env: PutEnv, key: string, o: CacheObject)
    requires key == "a" || key == "b"
    ensures Step(SMALL, s, Put(env, "", key, o)) == AfterWrite(SMALL, s, env, [key], Encode(o))
    ensures HashKey(key) && NamespaceOk("") && !IsTmp([key])
  {
    assert FilePath([], "", key) == [key];
    FinalIsNotTmp([], "", key);
  }

  /** The three writes, whatever the bytes. */
  function AfterFirst(older: seq<Byte>): Store {
    AfterWrite(SMALL, Store(map[], map[], 0), PutEnv(0, false, [], 0, ""), ["a"], older)
  }

  function AfterSecond(older: seq<Byte>, other: seq<Byte>): Store {
    AfterWrite(SMALL, AfterFirst(older), PutEnv(0, false, [["a"]], 1, ""), ["b"], other)
  }

  function AfterThird(older: seq<Byte>, other: seq<Byte>, newer: seq<Byte>): Store {
    AfterWrite(SMALL, AfterSecond(older, other), PutEnv(0, false, [["a"], ["b"]], 2, ""), ["a"], newer)
  }

  lemma DriftingRun(older: seq<Byte>, other: seq<Byte>, newer: seq<Byte>)
    requires |older| == 18 && |other| == 18 && |newer| == 24
    ensures IsListing(AfterFirst(older).disk, [["a"]], NotTmp)
    ensures IsListing(AfterSecond(older, other).disk, [["a"], ["b"]], NotTmp)
    ensures Exact(AfterSecond(older, other)) && !Exact(AfterThird(older, other, newer))
    ensures Total(AfterThird(older, other, newer).disk) > SMALL.maxSize
  {
    var a, b := ["a"], ["b"];
    SmallNames();
    TwoRoomyPuts(SMALL, a, b, older, other, PutEnv(0, false, [], 0, ""), PutEnv(0, false, [a], 1, ""));
    DriftingWrite(SMALL, a, b, older, other, newer, PutEnv(0, false, [a, b], 2, ""));
  }

  lemma DriftStates(first: CacheObject, second: CacheObject, third: CacheObject)
    ensures var ops, s := DriftOps(first, second, third), Store(map[], map[], 0);
            && StateAfter(SMALL, s, ops[..0]) == s
            && StateAfter(SMALL, s, ops[..1]) == AfterFirst(Encode(first))
            && StateAfter(SMALL, s, ops[..2]) == AfterSecond(Encode(first), Encode(second))
            && StateAfter(SMALL, s, ops) == AfterThird(Encode(first), Encode(second), Encode(third))
  {
    var ops, s := DriftOps(first, second, third), Store(map[], map[], 0);
    ThreeSteps(SMALL, s, ops[0], ops[1], ops[2]);
    SmallPut(s, ops[0].env, "a", first);
    SmallPut(AfterFirst(Encode(first)), ops[1].env, "b", second);
    SmallPut(AfterSecond(Encode(first), Encode(second)), ops[2].env, "a", third);
  }

  predicate DriftSizes(first: CacheObject, second: CacheObject, third: CacheObject) {
    |Encode(first)| == 18 && |Encode(second)| == 18 && |Encode(third)| == 24
  }

  lemma DriftWellFormed(first: CacheObject, second: CacheObject, third: CacheObject)
    requires DriftSizes(first, second, third)
    ensures var ops := DriftOps(first, second, third);
            && WellFormed(Store(map[], map[], 0), ops[0])
            && WellFormed(AfterFirst(Encode(first)), ops[1])
            && WellFormed(AfterSecond(Encode(first), Encode(second)), ops[2])
  {
    DriftingRun(Encode(first), Encode(second), Encode(third));
    SmallPutIsWellFormed(Store(map[], map[], 0), PutEnv(0, false, [], 0, ""), "a", first);
    SmallPutIsWellFormed(AfterFirst(Encode(first)), PutEnv(0, false, [["a"]], 1, ""), "b", second);
    SmallPutIsWellFormed(AfterSecond(Encode(first), Encode(second)), PutEnv(0, false, [["a"], ["b"]], 2, ""), "a",
        third);
  }

  lemma SmallPutIsWellFormed(s: Store, env: PutEnv, key: string, o: CacheObject)
    requires key == "a" || key == "b"
    requires IsListing(s.disk, env.listing, NotTmp)
    ensures WellFormed(s, Put(env, "", key, o))
  {
    SmallPut(s, env, key, o);
  }

  /**
   Three puts from an empty cache after which the counter is wrong and the directory over budget: the
   first key again, larger, when the second one leaves it too little room.
   */
  lemma CounterCanDrift(first: CacheObject, second: CacheObject, third: CacheObject)
    requires DriftSizes(first, second, third)
    ensures var ops, s := DriftOps(first, second, third), Store(map[], map[], 0);
            && WellFormed(s, ops[0])
            && WellFormed(StateAfter(SMALL, s, ops[..1]), ops[1])
            && WellFormed(StateAfter(SMALL, s, ops[..2]), ops[2])
    ensures var ops, s := DriftOps(first, second, third), Store(map[], map[], 0);
            && Exact(StateAfter(SMALL, s, ops[..2]))
            && !Exact(StateAfter(SMALL, s, ops))
            && Total(StateAfter(SMALL, s, ops).disk) > SMALL.maxSize
  {
    DriftStates(first, second, third);
    DriftWellFormed(first, second, third);
    DriftingRun(Encode(first), Encode(second), Encode(third));
  }

  lemma SmallNames()
    ensures !IsTmp(["a"]) && !IsTmp(["b"])
  {
    FinalIsNotTmp([], "", "a");
    FinalIsNotTmp([], "", "b");
    assert FilePath([], "", "a") == ["a"] && FilePath([], "", "b") == ["b"];
  }
}

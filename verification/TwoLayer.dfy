/**
 One call on both layers, running alone: when it leaves memory and disk agreeing
 on the latest object of every key.
 */
module TwoLayer {
  import opened Prelude
  import opened CacheCodec
  import opened PathLayout
  import opened FileCache
  import opened CacheRuns

  /** What was last put under each key and not removed since. */
  type Latest = map<string, CacheObject>

  /** The hot layer looks keys up without their namespace, so a key must determine it. */
  predicate KeyedBy(nsOf: string -> string, op: Op) {
    (op.Put? || op.Get? || op.Remove?) ==> op.namespace == nsOf(op.key)
  }

  /** Either the file cannot be read back, or it holds `o`. */
  predicate HoldsOnly(data: seq<Byte>, o: CacheObject) {
    Decode(data).Err? || Decode(data) == Ok(o)
  }

  ghost predicate HotCoherent(latest: Latest, s: Store) {
    forall key :: key in s.hot ==> key in latest && s.hot[key] == latest[key]
  }

  ghost predicate DiskCoherent(cfg: Config, nsOf: string -> string, latest: Latest, s: Store) {
    forall key :: HashKey(key) && NamespaceOk(nsOf(key)) && FilePath(cfg.levels, nsOf(key), key) in s.disk ==>
      var data := s.disk[FilePath(cfg.levels, nsOf(key), key)].data;
      Decode(data).Err? || (key in latest && HoldsOnly(data, latest[key]))
  }

  /** Whatever either layer still has is current. */
  ghost predicate Coherent(cfg: Config, nsOf: string -> string, latest: Latest, s: Store) {
    HotCoherent(latest, s) && DiskCoherent(cfg, nsOf, latest, s)
  }

  // ---- one `put` ----

  /** No older hot copy outlives this `put`. */
  predicate HotFresh(cfg: Config, s: Store, op: Op)
    requires op.Put?
  {
    Admissible(cfg, op.obj) || op.key !in s.hot || s.hot[op.key] == op.obj
  }

  /** No older file outlives this `put`: it is overwritten, or there was none to begin with. */
  predicate DiskFresh(cfg: Config, s: Store, op: Op)
    requires op.Put?
  {
    var path := FilePath(cfg.levels, op.namespace, op.key);
    if WritePlan(cfg, PutHot(cfg, s, op.key, op.obj), op.env, path, Encode(op.obj)).ok
    then HoldsOnly(Encode(op.obj), op.obj)
    else path in s.disk ==> HoldsOnly(s.disk[path].data, op.obj)
  }

  lemma OthersFilesApart(cfg: Config, nsOf: string -> string, op: Op, key: string)
    requires op.Put? && WellFormedKey(op) && HashKey(key) && NamespaceOk(nsOf(key)) && key != op.key
    ensures FilePath(cfg.levels, nsOf(key), key) != FilePath(cfg.levels, op.namespace, op.key)
  {
    if FilePath(cfg.levels, nsOf(key), key) == FilePath(cfg.levels, op.namespace, op.key) {
      PathsDistinct(cfg.levels, nsOf(key), key, op.namespace, op.key);
    }
  }

  predicate WellFormedKey(op: Op)
    requires op.Put?
  {
    NamespaceOk(op.namespace) && HashKey(op.key)
  }

  /** The disk after a `put`, seen from any one path. */
  lemma DiskAfterPut(cfg: Config, s: Store, op: Op, p: Path)
    requires op.Put?
    ensures var t := Step(cfg, s, op);
            var path := FilePath(cfg.levels, op.namespace, op.key);
            var plan := WritePlan(cfg, PutHot(cfg, s, op.key, op.obj), op.env, path, Encode(op.obj));
            && (plan.ok ==> path in t.disk && t.disk[path].data == Encode(op.obj))
            && (!plan.ok ==> t.disk == s.disk)
            && (p != path && p in t.disk ==> p in s.disk && t.disk[p] == s.disk[p])
  {
  }

  /**
   A `put` keeps the layers coherent with the new object if and only if no older hot copy is left by
   the admission limit and no older file by a skipped write.
   */
  lemma PutKeepsCoherence(cfg: Config, nsOf: string -> string, latest: Latest, s: Store, op: Op)
    requires op.Put? && WellFormed(s, op) && KeyedBy(nsOf, op)
    requires Coherent(cfg, nsOf, latest, s)
    ensures Coherent(cfg, nsOf, latest[op.key := op.obj], Step(cfg, s, op))
            <==> HotFresh(cfg, s, op) && DiskFresh(cfg, s, op)
  {
    var t := Step(cfg, s, op);
    var path := FilePath(cfg.levels, op.namespace, op.key);
    assert t.hot == PutHot(cfg, s, op.key, op.obj).hot;
    assert HotCoherent(latest[op.key := op.obj], t) <==> HotFresh(cfg, s, op);
    DiskAfterPut(cfg, s, op, path);
    if DiskFresh(cfg, s, op) {
      forall key | HashKey(key) && NamespaceOk(nsOf(key)) && FilePath(cfg.levels, nsOf(key), key) in t.disk
        ensures var data := t.disk[FilePath(cfg.levels, nsOf(key), key)].data;
                Decode(data).Err? || (key in latest[op.key := op.obj] && HoldsOnly(data, latest[op.key := op.obj][key]))
      {
        if key != op.key {
          OthersFilesApart(cfg, nsOf, op, key);
          DiskAfterPut(cfg, s, op, FilePath(cfg.levels, nsOf(key), key));
        }
      }
    } else {
      assert FilePath(cfg.levels, nsOf(op.key), op.key) in t.disk;
    }
  }

  // ---- a late admission ----

  /**
   A get admits what it read some time ago. That keeps the layers coherent if and only if the object
   is not admitted at all, or is still the latest of its key.
   */
  lemma AdmitKeepsCoherence(cfg: Config, nsOf: string -> string, latest: Latest, s: Store, key: string, o: CacheObject)
    requires Coherent(cfg, nsOf, latest, s)
    ensures Coherent(cfg, nsOf, latest, PutHot(cfg, s, key, o)) <==>
      !Admissible(cfg, o) || (key in latest && latest[key] == o)
  {
    var t := PutHot(cfg, s, key, o);
    assert Admissible(cfg, o) ==> key in t.hot && t.hot[key] == o;
  }

  lemma RemoveKeepsCoherence(cfg: Config, nsOf: string -> string, latest: Latest, s: Store, op: Op)
    requires op.Remove? && WellFormed(s, op) && KeyedBy(nsOf, op)
    requires Coherent(cfg, nsOf, latest, s)
    ensures Coherent(cfg, nsOf, latest - {op.key}, Step(cfg, s, op))
  {
    var t := Step(cfg, s, op);
    var path := FilePath(cfg.levels, op.namespace, op.key);
    assert t.hot == s.hot - {op.key} && t.disk == s.disk - {path};
  }

  // ---- crossing the admission limit ----

  /**
   An object that outgrew the hot layer is hidden behind the smaller
   one it replaced, for every pair of such objects and whatever happens on disk.
   */
  lemma StaleAfterGrowth(cfg: Config, s: Store, small: Op, big: Op, reading: nat, now: int)
    requires small.Put? && big.Put? && small.key == big.key
    requires Admissible(cfg, small.obj) && !Admissible(cfg, big.obj)
    ensures var t := Step(cfg, Step(cfg, s, small), big);
            AfterGet(cfg, t, reading, now, big.namespace, big.key).0 == Some(small.obj)
  {
  }
}

/** Sequential runs of the file cache: its operations as steps on the store. */
module CacheRuns {
  import opened Prelude
  import opened CacheCodec
  import opened PathLayout
  import opened FileCache

  datatype Op =
    | Put(env: PutEnv, namespace: string, key: string, obj: CacheObject)
    | Get(reading: nat, now: int, namespace: string, key: string)
    | Remove(namespace: string, key: string)
    | Clear(accessBefore: int, files: seq<Path>)
    | Purge(namespace: string, files: seq<Path>)
    | DropHot(keys: set<string>)      // the hot layer forgets on its own
    | LoseFiles(paths: set<Path>)     // files vanish behind the cache's back

  function Step(cfg: Config, s: Store, op: Op): Store {
    match op
    case Put(env, namespace, key, o) => AfterPut(cfg, s, env, namespace, key, o)
    case Get(reading, now, namespace, key) => AfterGet(cfg, s, reading, now, namespace, key).1
    case Remove(namespace, key) => AfterRemove(cfg, s, namespace, key)
    case Clear(_, files) => RemoveFiles(s, files)
    case Purge(_, files) => PurgeFiles(s, files)
    case DropHot(keys) => s.(hot := s.hot - keys)
    case LoseFiles(paths) => s.(disk := s.disk - paths)
  }

  /** What holds of every call: keys are hashes, namespaces plain, walks list what is there. */
  predicate WellFormed(s: Store, op: Op) {
    match op
    case Put(env, namespace, key, _) =>
      NamespaceOk(namespace) && HashKey(key) && IsListing(s.disk, env.listing, NotTmp)
    case Get(_, _, namespace, key) => NamespaceOk(namespace) && HashKey(key)
    case Remove(namespace, key) => NamespaceOk(namespace) && HashKey(key)
    case Clear(accessBefore, files) => NoDuplicates(files) && ToSet(files) == Stale(s.disk, accessBefore)
    case Purge(namespace, files) => PurgeAccepts(namespace) && IsListing(s.disk, files, InNamespace(namespace))
    case DropHot(_) => true
    case LoseFiles(_) => true
  }

  function StateAfter(cfg: Config, s: Store, ops: seq<Op>): Store {
    if ops == [] then s else Step(cfg, StateAfter(cfg, s, ops[..|ops| - 1]), ops[|ops| - 1])
  }
}

/**
 What a `get` answers, in terms of what memory and the directory hold: exactly
 when it misses, what it leaves behind, and when it answers what was put.
 */
module CacheAnswers {
  import opened Prelude
  import opened CacheCodec
  import opened PathLayout
  import opened FileCache

  // ---- what one call does ----

  /**
   A get misses exactly when memory has no copy and the read gate is shut, the file is absent or it does
   not decode; a hit is memory's copy, else what the file decodes to.
   */
  lemma GetMissesIff(cfg: Config, s: Store, reading: nat, now: int, namespace: string, key: string)
    ensures var path, r := FilePath(cfg.levels, namespace, key), AfterGet(cfg, s, reading, now, namespace, key).0;
            && (r == None <==>
                  && !(cfg.hotEnabled && key in s.hot)
                  && (|| (cfg.readingMax != 0 && cfg.readingMax <= reading)
                      || path !in s.disk || Decode(s.disk[path].data).Err?))
            && (r.Some? && cfg.hotEnabled && key in s.hot ==> r == Some(s.hot[key]))
            && (r.Some? && !(cfg.hotEnabled && key in s.hot) ==>
                  path in s.disk && Decode(s.disk[path].data) == Ok(r.value))
  {
  }

  /** It came from the disk: an answer memory does not have. */
  predicate FromDisk(cfg: Config, s: Store, r: Option<CacheObject>, key: string) {
    r.Some? && !(cfg.hotEnabled && key in s.hot)
  }

  /**
   What a get leaves: no file but its own changes, and that one goes only when it was read and did not
   decode; memory gains only the object just read from a file of at most 256 KiB, if it is light enough.
   */
  lemma GetLeaves(cfg: Config, s: Store, reading: nat, now: int, namespace: string, key: string)
    ensures var path, (r, t) := FilePath(cfg.levels, namespace, key), AfterGet(cfg, s, reading, now, namespace, key);
            && (forall p :: p != path ==> (p in t.disk <==> p in s.disk) && (p in s.disk ==> t.disk[p] == s.disk[p]))
            && (path in s.disk && path !in t.disk ==> r == None && Decode(s.disk[path].data).Err?)
            && (path in t.disk ==> path in s.disk && t.disk[path].data == s.disk[path].data)
            && (FromDisk(cfg, s, r, key) ==> path in t.disk && t.disk[path].accessed == now)
            && t.hot == (if FromDisk(cfg, s, r, key) && |s.disk[path].data| <= 262144 && Admissible(cfg, r.value)
                         then s.hot[key := r.value] else s.hot)
  {
  }

  /** The write gate is open and the file fits a limited budget beside the file it replaces. */
  predicate GoesThrough(cfg: Config, s: Store, env: PutEnv, path: Path, bytes: seq<Byte>) {
    && (cfg.writingMax == 0 || env.writing < cfg.writingMax)
    && (cfg.maxSize == 0 || |bytes| <= cfg.maxSize + LenOf(s.disk, path))
  }

  /** A put stores the encoded object exactly when it goes through; otherwise the directory is as it was. */
  lemma PutWritesIff(cfg: Config, s: Store, env: PutEnv, namespace: string, key: string, o: CacheObject)
    ensures var path, t := FilePath(cfg.levels, namespace, key), AfterPut(cfg, s, env, namespace, key, o);
            && (if GoesThrough(cfg, s, env, path, Encode(o))
                then path in t.disk && t.disk[path] == DiskFile(Encode(o), env.now)
                else t.disk == s.disk && t.currentSize == s.currentSize)
            && t.hot == if cfg.hotEnabled && Weight(o) < cfg.hotMaxWeight then s.hot[key := o] else s.hot
  {
  }

  /** An object is weighed in pages of 4096 bytes: at least one, the largest from 10240 pages on. */
  lemma WeightIs(o: CacheObject)
    ensures var size, w := |o.meta0| + |o.meta1| + |o.body|, Weight(o);
            && (size < 8192 ==> w == 1)
            && (4096 <= size < 41943040 ==> w * 4096 <= size < (w + 1) * 4096)
            && (size >= 41943040 ==> w == 65535)
  {
  }

  // ---- a get after a put ----

  /** The file answers: the gate is open and the file decodes to the object. */
  predicate FileAnswers(cfg: Config, s: Store, reading: nat, path: Path, o: CacheObject) {
    && (cfg.readingMax == 0 || reading < cfg.readingMax)
    && path in s.disk && Decode(s.disk[path].data) == Ok(o)
  }

  lemma GetAnswersIff(cfg: Config, s: Store, reading: nat, now: int, namespace: string, key: string, o: CacheObject)
    ensures AfterGet(cfg, s, reading, now, namespace, key).0 == Some(o) <==>
      if cfg.hotEnabled && key in s.hot then s.hot[key] == o
      else FileAnswers(cfg, s, reading, FilePath(cfg.levels, namespace, key), o)
  {
  }

  /**
   The next get answers what was just put exactly when memory took it, or memory holds that very object
   already, or memory holds nothing and the read gate is open and the file has it: written now with
   metadata that fits its length fields, or not written and there before.
   */
  lemma PutThenGetIff(cfg: Config, s: Store, env: PutEnv, reading: nat, now: int, namespace: string, key: string,
                      o: CacheObject)
    ensures var path, t := FilePath(cfg.levels, namespace, key), AfterPut(cfg, s, env, namespace, key, o);
            AfterGet(cfg, t, reading, now, namespace, key).0 == Some(o) <==>
              if Admissible(cfg, o) then true
              else if cfg.hotEnabled && key in s.hot then s.hot[key] == o
              else if GoesThrough(cfg, s, env, path, Encode(o))
              then (cfg.readingMax == 0 || reading < cfg.readingMax) && Representable(o)
              else FileAnswers(cfg, s, reading, path, o)
  {
    var t := AfterPut(cfg, s, env, namespace, key, o);
    PutWritesIff(cfg, s, env, namespace, key, o);
    GetAnswersIff(cfg, t, reading, now, namespace, key, o);
    DecodeUndoesEncode(o);
  }

  /** So what was put is found again: a write that went through, an open read gate, no older copy in memory. */
  lemma PutThenGetHits(cfg: Config, s: Store, env: PutEnv, reading: nat, now: int, namespace: string, key: string,
                       o: CacheObject)
    requires Representable(o) && GoesThrough(cfg, s, env, FilePath(cfg.levels, namespace, key), Encode(o))
    requires cfg.readingMax == 0 || reading < cfg.readingMax
    requires Admissible(cfg, o) || key !in s.hot
    ensures AfterGet(cfg, AfterPut(cfg, s, env, namespace, key, o), reading, now, namespace, key).0 == Some(o)
  {
    PutThenGetIff(cfg, s, env, reading, now, namespace, key, o);
  }

  /** A removed key is missed by the next get, whatever the gates are. */
  lemma RemoveThenGetMisses(cfg: Config, s: Store, reading: nat, now: int, namespace: string, key: string)
    ensures AfterGet(cfg, AfterRemove(cfg, s, namespace, key), reading, now, namespace, key).0 == None
  {
  }

  /** A get does not change what the next get of the key answers, when the gate lets both through. */
  lemma GetThenGet(cfg: Config, s: Store, reading: nat, now: int, later: int, namespace: string, key: string)
    requires cfg.readingMax == 0 || reading < cfg.readingMax
    ensures var (r, t) := AfterGet(cfg, s, reading, now, namespace, key);
            AfterGet(cfg, t, reading, later, namespace, key).0 == r
  {
  }
}

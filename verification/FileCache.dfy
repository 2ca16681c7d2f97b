/**
 The file cache: a hot memory layer in front of a directory of files, with a
 running byte counter and an LRU byte budget.

 What the operating system contributes to a call is a parameter: the order in
 which a directory walk lists the files, and the access time a read or write
 leaves behind.
 */
module FileCache {
  import opened Prelude
  import opened CacheCodec
  import opened PathLayout
  import opened StableSort

  const PAGE_SIZE: nat := 4096
  const MAX_OBJECT_CACHE_SIZE: nat := 10 * 1024 * PAGE_SIZE
  const INLINE_MAX_BYTES: nat := 256 * 1024
  const U16_MAX: nat := 0xFFFF

  datatype DiskFile = DiskFile(data: seq<Byte>, accessed: int)

  type Disk = map<Path, DiskFile>

  /** `max_size`, `reading_max` and `writing_max` are unlimited when zero. */
  datatype Config = Config(levels: seq<nat>, readingMax: nat, writingMax: nat, hotEnabled: bool, hotMaxWeight: nat,
                           maxSize: nat)

  /** The cache as a value. */
  datatype Store = Store(disk: Disk, hot: map<string, CacheObject>, currentSize: nat)

  function Weight(o: CacheObject): (w: nat)
    ensures 1 <= w <= U16_MAX
  {
    var size := |o.body| + |o.meta0| + |o.meta1|;
    if size <= PAGE_SIZE then 1
    else if size >= MAX_OBJECT_CACHE_SIZE then U16_MAX
    else size / PAGE_SIZE
  }

  predicate Admissible(cfg: Config, o: CacheObject) {
    cfg.hotEnabled && Weight(o) < cfg.hotMaxWeight
  }

  function LenOf(d: Disk, p: Path): nat {
    if p in d then |d[p].data| else 0
  }

  /** `measure_dir_size` over a walk. */
  function SumOfLens(d: Disk, files: seq<Path>): nat {
    if files == [] then 0 else LenOf(d, files[0]) + SumOfLens(d, files[1..])
  }

  /** A directory walk: the files that satisfy `keep`, each once, in some order. */
  predicate IsListing(d: Disk, listing: seq<Path>, keep: Path -> bool) {
    && NoDuplicates(listing)
    && (forall p :: p in listing ==> p in d && keep(p))
    && (forall p :: p in d && keep(p) ==> p in listing)
  }

  predicate NotTmp(p: Path) {
    !IsTmp(p)
  }

  predicate AnyPath(p: Path) {
    true
  }

  function InNamespace(namespace: string): Path -> bool {
    (p: Path) => Under(NamespaceDir(namespace), p) && !IsTmp(p)
  }

  function ToSet(files: seq<Path>): set<Path> {
    set p | p in files
  }

  // ---- eviction ----

  function AccessTime(d: Disk): Path -> int {
    (p: Path) => if p in d then d[p].accessed else 0
  }

  /** Least recently accessed first. */
  function LruOrder(d: Disk, listing: seq<Path>): seq<Path> {
    SortByKey(listing, AccessTime(d))
  }

  predicate Over(cfg: Config, currentSize: nat, need: nat) {
    SatAdd(currentSize, need) > cfg.maxSize
  }

  /** The counter after the removal of `files` has been accounted. */
  function CounterAfter(d: Disk, files: seq<Path>, currentSize: nat): nat {
    if files == [] then currentSize
    else SatSub(CounterAfter(d, files[..|files| - 1], currentSize), LenOf(d, files[|files| - 1]))
  }

  /** How many files, from the front, go before the budget holds. */
  function VictimCount(cfg: Config, d: Disk, files: seq<Path>, currentSize: nat, need: nat): (k: nat)
    ensures k <= |files|
    ensures forall j :: 0 <= j < k ==> Over(cfg, CounterAfter(d, files[..j], currentSize), need)
    ensures k < |files| ==> !Over(cfg, CounterAfter(d, files[..k], currentSize), need)
  {
    if files == [] then 0
    else
      var k := VictimCount(cfg, d, files[..|files| - 1], currentSize, need);
      assert forall j :: 0 <= j <= |files| - 1 ==> files[..|files| - 1][..j] == files[..j];
      if k == |files| - 1 && Over(cfg, CounterAfter(d, files[..k], currentSize), need) then k + 1 else k
  }

  datatype Ensured = Ensured(ok: bool, victims: seq<Path>)

  /** What `ensure_disk_space` decides: whether to go ahead, and what it deletes first. */
  function EnsureSpace(cfg: Config, s: Store, evicting: bool, need: nat, listing: seq<Path>): Ensured {
    if cfg.maxSize == 0 then Ensured(true, [])
    else if need > cfg.maxSize then Ensured(false, [])
    else if !Over(cfg, s.currentSize, need) || evicting then Ensured(true, [])
    else
      var files := LruOrder(s.disk, listing);
      Ensured(true, files[..VictimCount(cfg, s.disk, files, s.currentSize, need)])
  }

  function RemoveFiles(s: Store, files: seq<Path>): Store {
    s.(disk := s.disk - ToSet(files), currentSize := CounterAfter(s.disk, files, s.currentSize))
  }

  // ---- the operations as functions of the store ----

  function PutHot(cfg: Config, s: Store, key: string, o: CacheObject): Store {
    if Admissible(cfg, o) then s.(hot := s.hot[key := o]) else s
  }

  /** The part of a `put` another task or the clock decides. */
  datatype PutEnv = PutEnv(writing: nat, evicting: bool, listing: seq<Path>, now: int, tag: string)

  /** Whether the write gate lets this `put` through to the disk. */
  predicate WriteAdmitted(cfg: Config, env: PutEnv) {
    cfg.writingMax == 0 || env.writing < cfg.writingMax
  }

  /** What writing `bytes` over `path` adds to the directory. */
  function Growth(d: Disk, path: Path, bytes: seq<Byte>): nat {
    SatSub(|bytes|, LenOf(d, path))
  }

  /** Whether `bytes` will be written to `path`, and which files are evicted for it. */
  function WritePlan(cfg: Config, s: Store, env: PutEnv, path: Path, bytes: seq<Byte>): Ensured {
    if !WriteAdmitted(cfg, env) then Ensured(false, [])
    else EnsureSpace(cfg, s, env.evicting, Growth(s.disk, path, bytes), env.listing)
  }

  function AfterWrite(cfg: Config, s: Store, env: PutEnv, path: Path, bytes: seq<Byte>): Store {
    var plan := WritePlan(cfg, s, env, path, bytes);
    if !plan.ok then s
    else
      var s1 := RemoveFiles(s, plan.victims);
      s1.(disk := s1.disk[path := DiskFile(bytes, env.now)],
          currentSize := SatAdd(SatSub(s1.currentSize, LenOf(s.disk, path)), |bytes|))
  }

  function AfterPut(cfg: Config, s: Store, env: PutEnv, namespace: string, key: string, o: CacheObject): Store {
    AfterWrite(cfg, PutHot(cfg, s, key, o), env, FilePath(cfg.levels, namespace, key), Encode(o))
  }

  function RemoveTracked(s: Store, path: Path): Store {
    if path in s.disk then s.(disk := s.disk - {path}, currentSize := SatSub(s.currentSize, |s.disk[path].data|)) else s
  }

  function AfterRemove(cfg: Config, s: Store, namespace: string, key: string): Store {
    RemoveTracked(s.(hot := s.hot - {key}), FilePath(cfg.levels, namespace, key))
  }

  function AfterGet(cfg: Config, s: Store, reading: nat, now: int, namespace: string,
                    key: string): (Option<CacheObject>, Store) {
    var path := FilePath(cfg.levels, namespace, key);
    if cfg.hotEnabled && key in s.hot then (Some(s.hot[key]), s)
    else if cfg.readingMax > 0 && reading >= cfg.readingMax then (None, s)
    else if path !in s.disk then (None, s)
    else
      var data := s.disk[path].data;
      match Decode(data)
      case Err => (None, RemoveTracked(s, path))
      case Ok(o) =>
        var s1 := s.(disk := s.disk[path := DiskFile(data, now)]);
        (Some(o), if |data| <= INLINE_MAX_BYTES then PutHot(cfg, s1, key, o) else s1)
  }

  function Stale(d: Disk, accessBefore: int): set<Path> {
    set p | p in d && d[p].accessed <= accessBefore
  }

  function NamesOf(files: set<Path>): set<string> {
    set p | p in files && p != [] :: p[|p| - 1]
  }

  function PurgeFiles(s: Store, files: seq<Path>): Store {
    RemoveFiles(s, files).(hot := s.hot - NamesOf(ToSet(files)))
  }

  // ---- the class ----

  class FileCache {
    const cfg: Config
    var disk: Disk
    var hot: map<string, CacheObject>
    var currentSize: nat
    var reading: nat
    var writing: nat
    var evicting: bool

    ghost function Value(): Store
      reads this
    {
      Store(disk, hot, currentSize)
    }

    /** The walk at construction starts the counter from what the directory holds, temporaries included. */
    constructor (cfg: Config, disk: Disk, listing: seq<Path>)
      requires IsListing(disk, listing, AnyPath)
      ensures this.cfg == cfg && this.disk == disk && hot == map[] && reading == writing == 0 && !evicting
      ensures currentSize == SumOfLens(disk, listing)
    {
      this.cfg := cfg;
      this.disk := disk;
      hot := map[];
      reading, writing, evicting := 0, 0, false;
      currentSize := SumOfLens(disk, listing);
    }

    method TrackRemoved(len: nat)
      modifies this`currentSize
      ensures currentSize == SatSub(old(currentSize), len)
    {
      currentSize := SatSub(currentSize, len);
    }

    method RemoveTrackedFile(path: Path) returns (removed: bool)
      modifies this`disk, this`currentSize
      ensures removed == (path in old(disk))
      ensures Value() == RemoveTracked(old(Value()), path)
    {
      var len := LenOf(disk, path);
      if path !in disk {
        return false;
      }
      disk := disk - {path};
      TrackRemoved(len);
      return true;
    }

    /** The deletion loop of `ensure_disk_space`: from the front, until the budget holds. */
    method EvictFiles(files: seq<Path>, need: nat) returns (evicted: seq<Path>)
      modifies this`disk, this`currentSize
      ensures evicted == files[..VictimCount(cfg, old(disk), files, old(currentSize), need)]
      ensures Value() == RemoveFiles(old(Value()), evicted)
    {
      evicted := [];
      var walked := disk;
      ghost var before := Value();
      RemoveNone(before);
      var i := 0;
      while i < |files| && Over(cfg, currentSize, need)
        invariant 0 <= i <= |files|
        invariant evicted == files[..i]
        invariant Value() == RemoveFiles(before, evicted)
        invariant forall j :: 0 <= j < i ==> Over(cfg, CounterAfter(walked, files[..j], before.currentSize), need)
        decreases |files| - i
      {
        // a file already gone is accounted for all the same
        var file := files[i];
        RemoveOneMore(before, evicted, file);
        disk := disk - {file};
        TrackRemoved(LenOf(walked, file));
        evicted := evicted + [file];
        i := i + 1;
      }
      VictimCountUnique(cfg, walked, files, before.currentSize, need, i);
    }

    method EnsureDiskSpace(need: nat, listing: seq<Path>) returns (ok: bool, evicted: seq<Path>)
      requires IsListing(disk, listing, NotTmp)
      modifies this`disk, this`currentSize, this`evicting
      ensures evicting == old(evicting)
      ensures Ensured(ok, evicted) == old(EnsureSpace(cfg, Value(), evicting, need, listing))
      ensures Value() == RemoveFiles(old(Value()), evicted)
    {
      RemoveNone(Value());
      if cfg.maxSize == 0 {
        return true, [];
      }
      if need > cfg.maxSize {
        return false, [];
      }
      if !Over(cfg, currentSize, need) {
        return true, [];
      }
      if evicting {
        return true, [];
      }
      evicting := true;
      var files := LruOrder(disk, listing);
      evicted := EvictFiles(files, need);
      evicting := false;
      return true, evicted;
    }

    method PutHotLayer(key: string, o: CacheObject)
      modifies this`hot
      ensures Value() == PutHot(cfg, old(Value()), key, o)
    {
      if !cfg.hotEnabled {
        return;
      }
      var weight := Weight(o);
      if weight >= cfg.hotMaxWeight {
        return;
      }
      hot := hot[key := o];
    }

    /** The disk half of `put`: write gate, budget, temporary file, rename, accounting. */
    method WriteFile(file: Path, buf: seq<Byte>, listing: seq<Path>, now: int, tag: string)
      requires file != [] && file[|file| - 1] != "" && !IsTmp(file)
      requires IsListing(disk, listing, NotTmp)
      requires TmpPath(file, tag) !in disk
      modifies this
      ensures reading == old(reading) && writing == old(writing) && evicting == old(evicting)
      ensures Value() == AfterWrite(cfg, old(Value()), PutEnv(old(writing), old(evicting), listing, now, tag), file,
          buf)
    {
      RemoveNone(Value());
      var count := writing;
      writing := writing + 1;
      if cfg.writingMax > 0 && count >= cfg.writingMax {
        writing := writing - 1;
        return;
      }
      var newLen := |buf|;
      var oldLen := LenOf(disk, file);
      var ok, evicted := EnsureDiskSpace(SatSub(newLen, oldLen), listing);
      if !ok {
        writing := writing - 1;
        return;
      }
      var tmp := TmpPath(file, tag);
      RenameOver(disk, tmp, file, DiskFile(buf, now));
      disk := disk[tmp := DiskFile(buf, now)];
      disk := (disk - {tmp})[file := disk[tmp]];
      currentSize := SatAdd(SatSub(currentSize, oldLen), newLen);
      writing := writing - 1;
    }

    method Put(key: string, namespace: string, data: CacheObject, listing: seq<Path>, now: int, tag: string)
      requires NamespaceOk(namespace) && HashKey(key)
      requires IsListing(disk, listing, NotTmp)
      requires TmpPath(PathOf(cfg, namespace, key), tag) !in disk
      modifies this
      ensures reading == old(reading) && writing == old(writing) && evicting == old(evicting)
      ensures Value() == AfterPut(cfg, old(Value()), PutEnv(old(writing), old(evicting), listing, now, tag),
          namespace, key, data)
    {
      PutHotLayer(key, data);
      var file := GetFilePath(cfg.levels, key, namespace);
      assert file == PathOf(cfg, namespace, key);
      WriteFile(file, Encode(data), listing, now, tag);
    }

    method Remove(key: string, namespace: string)
      modifies this`hot, this`disk, this`currentSize
      ensures Value() == AfterRemove(cfg, old(Value()), namespace, key)
    {
      hot := hot - {key};
      var file := GetFilePath(cfg.levels, key, namespace);
      var _ := RemoveTrackedFile(file);
    }

    /** A large file: open it, parse header and metadata, then read the announced body region back in full. */
    method ReadBack(data: seq<Byte>, len: nat) returns (r: Result<CacheObject>)
      ensures r == Materialised(data, len)
      ensures len == |data| ==> r == Decode(data)
    {
      ReadersAgree(data);
      var handle := new FileHandle(data);
      var entry := OpenStreamEntry(handle, len);
      if entry.None? {
        return Err;
      }
      handle.SeekTo(entry.value.offset);
      var body := handle.ReadExact(entry.value.len);
      if body.Err? {
        return Err;
      }
      assert body.value == Region(data, entry.value);
      return Ok(CacheObject(entry.value.meta0, entry.value.meta1, body.value));
    }

    /** `get`: hot layer, read gate, then the whole file or, above the inline limit, header plus body region. */
    method Get(key: string, namespace: string, now: int) returns (r: Option<CacheObject>)
      modifies this
      ensures reading == old(reading) && writing == old(writing) && evicting == old(evicting)
      ensures (r, Value()) == old(AfterGet(cfg, Value(), reading, now, namespace, key))
    {
      if cfg.hotEnabled && key in hot {
        return Some(hot[key]);
      }
      var file := GetFilePath(cfg.levels, key, namespace);
      var count := reading;
      reading := reading + 1;
      if cfg.readingMax > 0 && count >= cfg.readingMax {
        reading := reading - 1;
        return None;
      }
      if file !in disk {
        reading := reading - 1;
        return None;
      }
      var data := disk[file].data;
      if |data| <= INLINE_MAX_BYTES {
        var decoded := Decode(data);
        if decoded.Err? {
          var _ := RemoveTrackedFile(file);
          reading := reading - 1;
          return None;
        }
        disk := disk[file := DiskFile(data, now)];
        PutHotLayer(key, decoded.value);
        reading := reading - 1;
        return Some(decoded.value);
      }
      var streamed := ReadBack(data, |data|);
      if streamed.Err? {
        var _ := RemoveTrackedFile(file);
        reading := reading - 1;
        return None;
      }
      disk := disk[file := DiskFile(data, now)];
      reading := reading - 1;
      return Some(streamed.value);
    }

    /** `clear`: every file last accessed no later than `accessBefore` goes, temporaries included. */
    method Clear(accessBefore: int, listing: seq<Path>) returns (success: nat)
      requires IsListing(disk, listing, AnyPath)
      modifies this`disk, this`currentSize
      ensures disk == old(disk) - Stale(old(disk), accessBefore)
      ensures forall p :: p in old(disk) ==> (p in disk <==> old(disk)[p].accessed > accessBefore)
      ensures exists files :: NoDuplicates(files) && ToSet(files) == Stale(old(disk), accessBefore)
                              && |files| == success && Value() == RemoveFiles(old(Value()), files)
    {
      var walked := disk;
      ghost var files := [];
      RemoveNone(Value());
      success := 0;
      for i := 0 to |listing|
        invariant NoDuplicates(files) && |files| == success
        invariant forall p :: p in files <==> (p in listing[..i] && walked[p].accessed <= accessBefore)
        invariant Value() == RemoveFiles(old(Value()), files)
      {
        var file := listing[i];
        if walked[file].accessed <= accessBefore {
          assert file !in files;
          disk := disk - {file};
          TrackRemoved(|walked[file].data|);
          RemoveOneMore(old(Value()), files, file);
          files := files + [file];
          success := success + 1;
        }
      }
      assert listing[..|listing|] == listing;
      assert ToSet(files) == Stale(walked, accessBefore);
    }

    /** `purge_namespace`: refused unless the namespace is plain; otherwise its files and their hot copies go. */
    method PurgeNamespace(namespace: string, listing: seq<Path>) returns (r: Result<nat>)
      requires IsListing(disk, listing, InNamespace(namespace))
      modifies this`disk, this`currentSize, this`hot
      ensures r.Ok? <==>
        namespace != "" && '/' !in namespace && '\\' !in namespace && !HasDotDot(namespace)
      ensures r.Err? ==> Value() == old(Value())
      ensures r.Ok? ==> r.value == |listing|
      ensures r.Ok? ==> Value() == PurgeFiles(old(Value()), listing)
      ensures r.Ok? ==> forall p :: p in old(disk) ==>
        (p in disk <==> !(NamespaceDir(namespace) <= p) || IsTmp(p)) && (p in disk ==> disk[p] == old(disk)[p])
      ensures r.Ok? ==> forall key :: key in old(hot) ==>
        (key in hot <==> !exists p :: p in listing && p != [] && p[|p| - 1] == key)
    {
      if !PurgeAccepts(namespace) {
        return Err;
      }
      var walked := disk;
      ghost var before := Value();
      PurgeNone(before);
      for i := 0 to |listing|
        invariant Value() == PurgeFiles(before, listing[..i])
      {
        var file := listing[i];
        assert listing[..i + 1] == listing[..i] + [file];
        PurgeOneMore(before, listing[..i], file);
        disk := disk - {file};
        TrackRemoved(LenOf(walked, file));
        hot := hot - NamesOf({file});
      }
      assert listing[..|listing|] == listing;
      assert forall p :: InNamespace(namespace)(p) <==> NamespaceDir(namespace) <= p && !IsTmp(p);
      return Ok(|listing|);
    }
  }

  function PathOf(cfg: Config, namespace: string, key: string): (p: Path)
    requires NamespaceOk(namespace) && HashKey(key)
    ensures p == FilePath(cfg.levels, namespace, key)
    ensures p != [] && p[|p| - 1] != "" && !IsTmp(p)
  {
    FilePathShape(cfg.levels, namespace, key);
    FinalIsNotTmp(cfg.levels, namespace, key);
    FilePath(cfg.levels, namespace, key)
  }

  /** The two defining bounds of the victim count leave no choice. */
  lemma VictimCountUnique(cfg: Config, d: Disk, files: seq<Path>, currentSize: nat, need: nat, k: nat)
    requires k <= |files|
    requires forall j :: 0 <= j < k ==> Over(cfg, CounterAfter(d, files[..j], currentSize), need)
    requires k < |files| ==> !Over(cfg, CounterAfter(d, files[..k], currentSize), need)
    ensures k == VictimCount(cfg, d, files, currentSize, need)
  {
  }

  /** Removing one more file is removing it from what is left. */
  lemma RemoveOneMore(s: Store, files: seq<Path>, file: Path)
    ensures RemoveFiles(s, files + [file]) ==
      RemoveFiles(s, files).(disk := RemoveFiles(s, files).disk - {file},
                             currentSize := SatSub(RemoveFiles(s, files).currentSize, LenOf(s.disk, file)))
  {
    var more := files + [file];
    assert more[..|more| - 1] == files;
    assert ToSet(more) == ToSet(files) + {file};
    assert s.disk - ToSet(more) == s.disk - ToSet(files) - {file};
  }

  /** Writing a fresh temporary and renaming it is one replacement of the final file. */
  lemma RenameOver(d: Disk, tmp: Path, file: Path, content: DiskFile)
    requires tmp !in d && tmp != file
    ensures (d[tmp := content] - {tmp})[file := content] == d[file := content]
  {
    assert d[tmp := content] - {tmp} == d;
  }

  lemma RemoveNone(s: Store)
    ensures RemoveFiles(s, []) == s
  {
    assert s.disk - ToSet([]) == s.disk;
  }

  lemma PurgeNone(s: Store)
    ensures PurgeFiles(s, []) == s
  {
    RemoveNone(s);
    assert s.hot - NamesOf(ToSet([])) == s.hot;
  }

  lemma PurgeOneMore(s: Store, files: seq<Path>, file: Path)
    ensures var t := PurgeFiles(s, files);
            PurgeFiles(s, files + [file]) ==
              Store(t.disk - {file}, t.hot - NamesOf({file}), SatSub(t.currentSize, LenOf(s.disk, file)))
  {
    RemoveOneMore(s, files, file);
    assert ToSet(files + [file]) == ToSet(files) + {file};
    assert NamesOf(ToSet(files + [file])) == NamesOf(ToSet(files)) + NamesOf({file});
    assert s.hot - NamesOf(ToSet(files + [file])) == s.hot - NamesOf(ToSet(files)) - NamesOf({file});
  }

  /** After a purge every file of another non-empty namespace is there unchanged, unless the purge is for ".". */
  lemma PurgeSparesOthers(levels: seq<nat>, s: Store, files: seq<Path>, purged: string, namespace: string, key: string)
    requires PurgeAccepts(purged) && IsListing(s.disk, files, InNamespace(purged))
    requires Plain(namespace) && HashKey(key) && namespace != purged && FilePath(levels, namespace, key) in s.disk
    ensures var path, t := FilePath(levels, namespace, key), PurgeFiles(s, files);
            (path in t.disk && t.disk[path] == s.disk[path]) <==> purged != "."
    ensures purged == "." ==> FilePath(levels, namespace, key) !in PurgeFiles(s, files).disk
  {
    var path := FilePath(levels, namespace, key);
    PurgeLeavesOthers(levels, purged, namespace, key);
    FinalIsNotTmp(levels, namespace, key);
    assert InNamespace(purged)(path) <==> purged == ".";
  }
}

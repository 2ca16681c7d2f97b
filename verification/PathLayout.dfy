/**
 Where a cache file lies: `<directory>/<namespace>/<level dirs>/<key>`.

 A path is the list of its components below the backend directory, the way
 `Path::components` and the filesystem see it: a "." component vanishes.
 */
module PathLayout {
  import opened Prelude
  import opened Text

  type Path = seq<string>

  predicate HasDotDot(s: string) {
    exists i :: 0 <= i < |s| - 1 && s[i] == '.' && s[i + 1] == '.'
  }

  /** One ordinary path component. */
  predicate Plain(s: string) {
    s != "" && s != "." && s != ".." && !Has(s, '/')
  }

  /** A namespace is a plain component or missing. */
  predicate NamespaceOk(namespace: string) {
    namespace == "" || Plain(namespace)
  }

  /** A cache key is a hash: one ASCII component without dots. */
  predicate HashKey(key: string) {
    key != "" && forall i :: 0 <= i < |key| ==> key[i] < '\U{0080}' && key[i] != '/' && key[i] != '.'
  }

  /** `PathBuf::push` of a slash-free string. */
  function Push(path: Path, component: string): Path {
    if component == "" || component == "." then path else path + [component]
  }

  // ---- the layout ----

  function PushLevels(path: Path, key: string, currentLen: nat, levels: seq<nat>): Path
    requires currentLen <= |key|
    decreases |levels|
  {
    if levels == [] then path
    else if currentLen > levels[0] then
      PushLevels(Push(path, key[currentLen - levels[0]..currentLen]), key, currentLen - levels[0], levels[1..])
    else PushLevels(path, key, currentLen, levels[1..])
  }

  function LevelDirs(levels: seq<nat>, key: string): Path {
    PushLevels([], key, SatSub(|key|, 1), levels)
  }

  function FilePath(levels: seq<nat>, namespace: string, key: string): Path {
    Push(Push([], namespace) + LevelDirs(levels, key), key)
  }

  /** `get_file_path`: every slice of the key is in bounds, whatever the levels. */
  method GetFilePath(levels: seq<nat>, key: string, namespace: string) returns (path: Path)
    ensures path == FilePath(levels, namespace, key)
  {
    path := [];
    if namespace != "" {
      path := Push(path, namespace);
    }
    if levels == [] {
      path := Push(path, key);
      return;
    }
    var currentLen: nat := SatSub(|key|, 1);
    ghost var base := path;
    for i := 0 to |levels|
      invariant currentLen <= |key|
      invariant PushLevels(path, key, currentLen, levels[i..]) == PushLevels(base, key, SatSub(|key|, 1), levels)
    {
      var level := levels[i];
      assert levels[i..][0] == level && levels[i..][1..] == levels[i + 1..];
      if currentLen > level {
        path := Push(path, key[currentLen - level..currentLen]);
        currentLen := currentLen - level;
      }
    }
    path := Push(path, key);
    LevelsFromBase(base, key, levels);
  }

  lemma LevelsFromBase(base: Path, key: string, levels: seq<nat>)
    ensures PushLevels(base, key, SatSub(|key|, 1), levels) == base + LevelDirs(levels, key)
  {
    PushLevelsPrefix(base, [], key, SatSub(|key|, 1), levels);
    assert base + [] == base;
  }

  lemma {:induction false} PushLevelsPrefix(base: Path, path: Path, key: string, currentLen: nat, levels: seq<nat>)
    requires currentLen <= |key|
    ensures PushLevels(base + path, key, currentLen, levels) == base + PushLevels(path, key, currentLen, levels)
    decreases |levels|
  {
    if levels != [] {
      if currentLen > levels[0] {
        var dir := key[currentLen - levels[0]..currentLen];
        assert Push(base + path, dir) == base + Push(path, dir) by {
          assert (base + path) + [dir] == base + (path + [dir]);
        }
        PushLevelsPrefix(base, Push(path, dir), key, currentLen - levels[0], levels[1..]);
      } else {
        PushLevelsPrefix(base, path, key, currentLen, levels[1..]);
      }
    }
  }

  lemma FilePathShape(levels: seq<nat>, namespace: string, key: string)
    requires NamespaceOk(namespace) && HashKey(key)
    ensures var p := FilePath(levels, namespace, key);
            && p != [] && p[|p| - 1] == key
            && (namespace == "" ==> p == LevelDirs(levels, key) + [key])
            && (namespace != "" ==> p == [namespace] + LevelDirs(levels, key) + [key])
  {
    assert key[0] != '.';
    assert [] + LevelDirs(levels, key) == LevelDirs(levels, key);
  }

  /** The characters of the key the first `n` levels take. */
  function Taken(levels: seq<nat>, n: nat): nat
    requires n <= |levels|
  {
    if n == 0 then 0 else Taken(levels, n - 1) + levels[n - 1]
  }

  lemma {:induction false} TakenGrows(levels: seq<nat>, m: nat, n: nat)
    requires m <= n <= |levels|
    ensures Taken(levels, m) <= Taken(levels, n)
  {
    if m < n {
      TakenGrows(levels, m, n - 1);
    }
  }

  lemma {:induction false} TakenAfterFirst(levels: seq<nat>, n: nat)
    requires 0 < n <= |levels|
    ensures Taken(levels, n) == levels[0] + Taken(levels[1..], n - 1)
  {
    if n > 1 {
      TakenAfterFirst(levels, n - 1);
    }
  }

  /** Level `i` of the directories: its characters of the key, counted back from `end` after the earlier levels'. */
  function LevelSlice(key: string, end: nat, levels: seq<nat>, i: nat): string
    requires i < |levels| && Taken(levels, |levels|) <= end <= |key|
  {
    TakenGrows(levels, i + 1, |levels|);
    key[end - Taken(levels, i + 1)..end - Taken(levels, i)]
  }

  lemma NextSlice(key: string, end: nat, levels: seq<nat>, i: nat)
    requires 0 < i < |levels| && Taken(levels, |levels|) <= end <= |key|
    ensures Taken(levels, |levels|) == levels[0] + Taken(levels[1..], |levels[1..]|)
    ensures LevelSlice(key, end, levels, i) == LevelSlice(key, end - levels[0], levels[1..], i - 1)
  {
    TakenAfterFirst(levels, |levels|);
    TakenAfterFirst(levels, i);
    TakenAfterFirst(levels, i + 1);
  }

  /** Every level takes at least one character and together they leave one. */
  predicate LevelsFit(levels: seq<nat>, end: nat) {
    Taken(levels, |levels|) < end && forall i :: 0 <= i < |levels| ==> levels[i] > 0
  }

  lemma FirstFits(path: Path, key: string, end: nat, levels: seq<nat>)
    requires HashKey(key) && LevelsFit(levels, end) && end <= |key| && levels != []
    ensures levels[0] < end && LevelsFit(levels[1..], end - levels[0])
    ensures PushLevels(path, key, end, levels) ==
      PushLevels(path + [key[end - levels[0]..end]], key, end - levels[0], levels[1..])
  {
    TakenAfterFirst(levels, |levels|);
    assert levels[0] > 0;
    assert key[end - levels[0]..end][0] == key[end - levels[0]] != '.';
    forall i | 0 <= i < |levels[1..]| ensures levels[1..][i] > 0 {
      assert levels[1..][i] == levels[i + 1];
    }
  }

  lemma {:induction false} PushedLevels(path: Path, key: string, end: nat, levels: seq<nat>)
    requires HashKey(key) && LevelsFit(levels, end) && end <= |key|
    ensures var r := PushLevels(path, key, end, levels); |r| == |path| + |levels| && path <= r
    decreases |levels|
  {
    if levels != [] {
      FirstFits(path, key, end, levels);
      PushedLevels(path + [key[end - levels[0]..end]], key, end - levels[0], levels[1..]);
    }
  }

  lemma PushedFirst(path: Path, key: string, end: nat, levels: seq<nat>)
    requires HashKey(key) && LevelsFit(levels, end) && end <= |key| && levels != []
    ensures var r := PushLevels(path, key, end, levels);
            |r| == |path| + |levels| && r[|path|] == LevelSlice(key, end, levels, 0)
  {
    FirstFits(path, key, end, levels);
    PushedLevels(path + [key[end - levels[0]..end]], key, end - levels[0], levels[1..]);
    TakenAfterFirst(levels, 1);
  }

  lemma {:induction false} PushedLevelIs(path: Path, key: string, end: nat, levels: seq<nat>, i: nat)
    requires HashKey(key) && LevelsFit(levels, end) && end <= |key| && i < |levels|
    ensures var r := PushLevels(path, key, end, levels);
            |r| == |path| + |levels| && r[|path| + i] == LevelSlice(key, end, levels, i)
    decreases |levels|
  {
    PushedFirst(path, key, end, levels);
    if i > 0 {
      FirstFits(path, key, end, levels);
      PushedLevelIs(path + [key[end - levels[0]..end]], key, end - levels[0], levels[1..], i - 1);
      NextSlice(key, end, levels, i);
    }
  }

  /**
   Where the levels fit, the directories are named by the characters before the last of the key, taken
   from the end: as many as the first level says, then as many before those, and so on.
   */
  lemma LevelDirsAre(levels: seq<nat>, key: string, i: nat)
    requires HashKey(key) && LevelsFit(levels, |key| - 1) && i < |levels|
    ensures |LevelDirs(levels, key)| == |levels|
    ensures LevelDirs(levels, key)[i] == LevelSlice(key, |key| - 1, levels, i)
  {
    PushedLevelIs([], key, |key| - 1, levels, i);
  }

  // ---- distinct keys, distinct files ----

  /** Two (namespace, key) pairs share a file only when they are equal. */
  lemma PathsDistinct(levels: seq<nat>, namespace1: string, key1: string, namespace2: string, key2: string)
    requires NamespaceOk(namespace1) && HashKey(key1) && NamespaceOk(namespace2) && HashKey(key2)
    requires FilePath(levels, namespace1, key1) == FilePath(levels, namespace2, key2)
    ensures namespace1 == namespace2 && key1 == key2
  {
    FilePathShape(levels, namespace1, key1);
    FilePathShape(levels, namespace2, key2);
    var p := FilePath(levels, namespace1, key1);
    assert key1 == p[|p| - 1] == key2;
    // the same key contributes the same level directories, so only the first component can differ
    if namespace1 != "" && namespace2 != "" {
      assert namespace1 == p[0] == namespace2;
    }
  }

  /** `quota_key_of`: the first component and the file name, for a file inside some directory. */
  function QuotaKeyOf(path: Path): Option<(string, string)> {
    if |path| < 2 then None else Some((path[0], path[|path| - 1]))
  }

  /** The pair is recovered from the path exactly when the namespace is not empty. */
  lemma QuotaKeyRecovers(levels: seq<nat>, namespace: string, key: string)
    requires NamespaceOk(namespace) && HashKey(key)
    ensures QuotaKeyOf(FilePath(levels, namespace, key)) == Some((namespace, key)) <==> namespace != ""
  {
    FilePathShape(levels, namespace, key);
    if namespace == "" {
      LevelDirsNotEmpty([], levels, key, SatSub(|key|, 1));
    }
  }

  predicate NoEmptyPart(path: Path) {
    forall i :: 0 <= i < |path| ==> |path[i]| > 0
  }

  lemma {:induction false} LevelDirsNotEmpty(path: Path, levels: seq<nat>, key: string, currentLen: nat)
    requires currentLen <= |key|
    requires NoEmptyPart(path)
    ensures NoEmptyPart(PushLevels(path, key, currentLen, levels))
    decreases |levels|
  {
    if levels != [] {
      if currentLen > levels[0] {
        var pushed := Push(path, key[currentLen - levels[0]..currentLen]);
        LevelDirsNotEmpty(pushed, levels[1..], key, currentLen - levels[0]);
      } else {
        LevelDirsNotEmpty(path, levels[1..], key, currentLen);
      }
    }
  }

  // ---- what a namespace purge reaches ----

  /** The guard of `purge_namespace`. */
  predicate PurgeAccepts(namespace: string) {
    namespace != "" && !Has(namespace, '/') && !Has(namespace, '\\') && !HasDotDot(namespace)
  }

  function NamespaceDir(namespace: string): Path {
    Push([], namespace)
  }

  predicate Under(dir: Path, path: Path) {
    dir <= path
  }

  /**
   The files a purge of an accepted namespace reaches: its own, every file when the namespace is ".",
   and files stored without a namespace below a level directory (or as a file) of that very name.
   */
  lemma PurgeReach(levels: seq<nat>, purged: string, namespace: string, key: string)
    requires PurgeAccepts(purged) && NamespaceOk(namespace) && HashKey(key)
    ensures FilePath(levels, namespace, key) != []
    ensures Under(NamespaceDir(purged), FilePath(levels, namespace, key)) <==>
      || purged == "."
      || namespace == purged
      || (namespace == "" && FilePath(levels, namespace, key)[0] == purged)
  {
    FilePathShape(levels, namespace, key);
    var p := FilePath(levels, namespace, key);
    if purged != "." {
      assert NamespaceDir(purged) == [purged];
      assert [purged] <= p <==> p[0] == purged;
    }
  }

  /** A purge leaves every file of every other non-empty namespace alone exactly when it is not for ".". */
  lemma PurgeLeavesOthers(levels: seq<nat>, purged: string, namespace: string, key: string)
    requires PurgeAccepts(purged) && Plain(namespace) && HashKey(key) && namespace != purged
    ensures !Under(NamespaceDir(purged), FilePath(levels, namespace, key)) <==> purged != "."
  {
    PurgeReach(levels, purged, namespace, key);
  }

  // ---- temporary files ----

  /** `Path::extension() == "tmp"`. */
  predicate IsTmp(path: Path) {
    path != [] &&
    var name := path[|path| - 1];
    |name| > 4 && name[|name| - 4..] == ".tmp"
  }

  /** The temporary of a `put`, told apart by process id and sequence number in `tag`. */
  function TmpPath(path: Path, tag: string): (r: Path)
    requires path != [] && path[|path| - 1] != ""
    ensures IsTmp(r)
  {
    var name := path[|path| - 1] + "." + tag + ".tmp";
    assert name[|name| - 4..] == ".tmp";
    path[..|path| - 1] + [name]
  }

  lemma FinalIsNotTmp(levels: seq<nat>, namespace: string, key: string)
    requires NamespaceOk(namespace) && HashKey(key)
    ensures !IsTmp(FilePath(levels, namespace, key))
  {
    FilePathShape(levels, namespace, key);
    assert |key| > 4 ==> key[|key| - 4..][0] != '.';
  }
}

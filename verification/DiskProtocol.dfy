/**
 Writers, readers and deletions sharing the cache directory, interleaved at
 every system call and every crash.

 A name is a directory entry; an inode is what an open descriptor keeps hold
 of. A writer fills a temporary piece by piece and renames it over the final
 name; a reader stats, opens and reads piece by piece.
 */
module DiskProtocol {
  import opened Prelude
  import opened CacheCodec
  import opened StaleStream
  import FileCache
  import StreamedHit

  type Bytes = seq<Byte>

  /** The final file of a key, or the temporary of one writer of it. */
  datatype Name = Final(key: string) | Tmp(key: string, writer: nat)

  /** A `put` in flight: the bytes it writes and, once its temporary is open, how far it got. */
  datatype Writer = Writer(key: string, bytes: Bytes, inode: Option<nat>, written: nat)

  datatype Reader =
    | Started(key: string)
    | Statted(key: string, len: nat)
    | Opened(key: string, len: nat, inode: nat, buf: Bytes)
    | Missed(key: string)
    | Read(key: string, len: nat, fileLen: nat, buf: Bytes)

  datatype Sys = Sys(names: map<Name, nat>, inodes: map<nat, Bytes>, writers: map<nat, Writer>,
                     readers: map<nat, Reader>, puts: set<(string, Bytes)>)

  datatype Event =
    | BeginPut(w: nat, key: string, bytes: Bytes)
    | OpenTmp(w: nat, newInode: nat)
    | WriteSome(w: nat, n: nat)
    | Rename(w: nat)
    | Abandon(w: nat)                 // error or crash, at any point
    | Unlink(name: Name)              // remove, evict, purge, sweep, discard
    | BeginGet(r: nat, key: string)
    | Stat(r: nat)
    | Open(r: nat)
    | ReadSome(r: nat, n: nat)
    | FinishRead(r: nat)
    | DropReader(r: nat)

  /** How many bytes a read takes: the whole file when inline, else up to the length the stat saw. */
  function ReadLimit(len: nat, fileLen: nat): nat {
    if len <= FileCache.INLINE_MAX_BYTES then fileLen else Min(len, fileLen)
  }

  predicate Enabled(s: Sys, e: Event) {
    match e
    case BeginPut(w, _, _) => w !in s.writers
    case OpenTmp(w, i) => w in s.writers && s.writers[w].inode.None? && i !in s.inodes
    case WriteSome(w, n) =>
      w in s.writers && s.writers[w].inode.Some? && s.writers[w].inode.value in s.inodes &&
      s.writers[w].written + n <= |s.writers[w].bytes|
    case Rename(w) =>
      w in s.writers && s.writers[w].inode.Some? && s.writers[w].written == |s.writers[w].bytes|
    case Abandon(w) => w in s.writers
    case Unlink(_) => true
    case BeginGet(r, _) => r !in s.readers
    case Stat(r) =>
      r in s.readers && s.readers[r].Started? &&
      (Final(s.readers[r].key) in s.names ==> s.names[Final(s.readers[r].key)] in s.inodes)
    case Open(r) => r in s.readers && s.readers[r].Statted?
    case ReadSome(r, n) =>
      r in s.readers && s.readers[r].Opened? && s.readers[r].inode in s.inodes &&
      var size := |s.inodes[s.readers[r].inode]|;
      |s.readers[r].buf| + n <= ReadLimit(s.readers[r].len, size) <= size
    case FinishRead(r) =>
      r in s.readers && s.readers[r].Opened? && s.readers[r].inode in s.inodes &&
      |s.readers[r].buf| == ReadLimit(s.readers[r].len, |s.inodes[s.readers[r].inode]|)
    case DropReader(r) => r in s.readers
  }

  function Apply(s: Sys, e: Event): Sys
    requires Enabled(s, e)
  {
    match e
    case BeginPut(w, key, bytes) =>
      s.(writers := s.writers[w := Writer(key, bytes, None, 0)], puts := s.puts + {(key, bytes)})
    case OpenTmp(w, i) =>
      // create, or truncate what an earlier process with the same id left under this name
      var wr := s.writers[w];
      var tmp := Tmp(wr.key, w);
      if tmp in s.names then
        s.(inodes := s.inodes[s.names[tmp] := []], writers := s.writers[w := wr.(inode := Some(s.names[tmp]))])
      else
        s.(names := s.names[tmp := i], inodes := s.inodes[i := []], writers := s.writers[w := wr.(inode := Some(i))])
    case WriteSome(w, n) =>
      var wr := s.writers[w];
      var i := wr.inode.value;
      s.(inodes := s.inodes[i := s.inodes[i] + wr.bytes[wr.written..wr.written + n]],
         writers := s.writers[w := wr.(written := wr.written + n)])
    case Rename(w) =>
      var wr := s.writers[w];
      var tmp := Tmp(wr.key, w);
      var done := s.(writers := s.writers - {w});
      if tmp in s.names then done.(names := (s.names - {tmp})[Final(wr.key) := s.names[tmp]]) else done
    case Abandon(w) => s.(writers := s.writers - {w})
    case Unlink(name) => s.(names := s.names - {name})
    case BeginGet(r, key) => s.(readers := s.readers[r := Started(key)])
    case Stat(r) =>
      var key := s.readers[r].key;
      s.(readers := s.readers[r :=
        if Final(key) in s.names then Statted(key, |s.inodes[s.names[Final(key)]]|) else Missed(key)])
    case Open(r) =>
      var rd := s.readers[r];
      s.(readers := s.readers[r :=
        if Final(rd.key) in s.names then Opened(rd.key, rd.len, s.names[Final(rd.key)], []) else Missed(rd.key)])
    case ReadSome(r, n) =>
      var rd := s.readers[r];
      var data := s.inodes[rd.inode];
      s.(readers := s.readers[r := Opened(rd.key, rd.len, rd.inode, rd.buf + data[|rd.buf|..|rd.buf| + n])])
    case FinishRead(r) =>
      var rd := s.readers[r];
      s.(readers := s.readers[r := Read(rd.key, rd.len, |s.inodes[rd.inode]|, rd.buf)])
    case DropReader(r) => s.(readers := s.readers - {r})
  }

  // ---- the invariant ----

  ghost predicate NamesOk(s: Sys) {
    && (forall n :: n in s.names ==> s.names[n] in s.inodes)
    && (forall m, n :: m in s.names && n in s.names && m != n ==> s.names[m] != s.names[n])
  }

  /** Every final name holds all the bytes of some `put` of its key. */
  ghost predicate FinalsWhole(s: Sys) {
    forall key :: Final(key) in s.names && s.names[Final(key)] in s.inodes ==>
      (key, s.inodes[s.names[Final(key)]]) in s.puts
  }

  /** A writer's temporary holds what it wrote so far. */
  ghost predicate WritersHold(s: Sys) {
    forall w :: w in s.writers ==>
      var wr := s.writers[w];
      && (wr.key, wr.bytes) in s.puts
      && wr.written <= |wr.bytes|
      && (wr.inode.Some? ==> wr.inode.value in s.inodes && s.inodes[wr.inode.value] == wr.bytes[..wr.written])
      && (wr.inode.None? ==> wr.written == 0)
  }

  /** No other name refers to it. */
  ghost predicate WritersNamed(s: Sys) {
    forall w, n :: w in s.writers && n in s.names && s.writers[w].inode == Some(s.names[n]) ==>
      n == Tmp(s.writers[w].key, w)
  }

  /** Its own name, while it exists, does. */
  ghost predicate WritersOwn(s: Sys) {
    forall w :: w in s.writers && s.writers[w].inode.Some? && Tmp(s.writers[w].key, w) in s.names ==>
      s.writers[w].inode == Some(s.names[Tmp(s.writers[w].key, w)])
  }

  /** No two writers share one. */
  ghost predicate WritersApart(s: Sys) {
    forall v, w :: v in s.writers && w in s.writers && v != w && s.writers[v].inode.Some? ==>
      s.writers[v].inode != s.writers[w].inode
  }

  ghost predicate WritersOk(s: Sys) {
    WritersHold(s) && WritersNamed(s) && WritersOwn(s) && WritersApart(s)
  }

  /** An open reader holds a prefix of a whole file that no writer and no temporary name can reach. */
  ghost predicate ReadersOk(s: Sys) {
    && (forall r :: r in s.readers && s.readers[r].Opened? ==>
          var rd := s.readers[r];
          && rd.inode in s.inodes
          && (rd.key, s.inodes[rd.inode]) in s.puts
          && rd.buf <= s.inodes[rd.inode])
    && (forall r, w :: r in s.readers && s.readers[r].Opened? && w in s.writers ==>
          s.writers[w].inode != Some(s.readers[r].inode))
    && (forall r, n :: r in s.readers && s.readers[r].Opened? && n in s.names && n.Tmp? ==>
          s.names[n] != s.readers[r].inode)
  }

  /** A finished read holds the read limit's worth of a file some `put` of the key wrote. */
  ghost predicate ReadsOk(s: Sys) {
    forall r :: r in s.readers && s.readers[r].Read? ==> ReadOk(s.puts, s.readers[r])
  }

  ghost predicate ReadOk(puts: set<(string, Bytes)>, rd: Reader)
    requires rd.Read?
  {
    exists p :: p in puts && p.0 == rd.key && |p.1| == rd.fileLen && ReadLimit(rd.len, rd.fileLen) <= |p.1|
                && rd.buf == p.1[..ReadLimit(rd.len, rd.fileLen)]
  }

  ghost predicate Inv(s: Sys) {
    NamesOk(s) && FinalsWhole(s) && WritersOk(s) && ReadersOk(s) && ReadsOk(s)
  }

  const EMPTY: Sys := Sys(map[], map[], map[], map[], {})

  // ---- each step keeps it ----

  /** Finished reads stay explained as long as no put is forgotten. */
  lemma ReadsCarryOver(s: Sys, t: Sys)
    requires ReadsOk(s) && s.puts <= t.puts
    requires forall r :: r in t.readers && t.readers[r].Read? ==> r in s.readers && s.readers[r] == t.readers[r]
    ensures ReadsOk(t)
  {
    forall r | r in t.readers && t.readers[r].Read? ensures ReadOk(t.puts, t.readers[r]) {
      assert ReadOk(s.puts, s.readers[r]);
    }
  }

  lemma BeginPutKeeps(s: Sys, e: Event)
    requires Inv(s) && Enabled(s, e) && e.BeginPut?
    ensures Inv(Apply(s, e))
  {
    BeginPutFinals(s, e);
    BeginPutWriters(s, e);
    BeginPutFrame(s, e);
    FrameKeepsReaders(s, Apply(s, e));
  }

  /** Readers and files unchanged, no put forgotten, no writer on new ground and no new temporary name. */
  ghost predicate ReaderFrame(s: Sys, t: Sys) {
    && t.readers == s.readers && t.inodes == s.inodes && s.puts <= t.puts
    && (forall w :: w in t.writers && t.writers[w].inode.Some? ==>
          w in s.writers && s.writers[w].inode == t.writers[w].inode)
    && (forall n :: n in t.names && n.Tmp? ==> n in s.names && s.names[n] == t.names[n])
  }

  /** Then open readers keep what they hold. */
  lemma ReadersCarryOver(s: Sys, t: Sys)
    requires ReadersOk(s) && ReaderFrame(s, t)
    ensures ReadersOk(t)
  {
  }

  lemma BeginPutFrame(s: Sys, e: Event)
    requires Enabled(s, e) && e.BeginPut?
    ensures ReaderFrame(s, Apply(s, e))
  {
  }

  lemma RenameFrame(s: Sys, e: Event)
    requires Enabled(s, e) && e.Rename?
    ensures ReaderFrame(s, Apply(s, e))
  {
  }

  lemma FrameKeepsReaders(s: Sys, t: Sys)
    requires ReadersOk(s) && ReadsOk(s) && ReaderFrame(s, t)
    ensures ReadersOk(t) && ReadsOk(t)
  {
    ReadersCarryOver(s, t);
    ReadsCarryOver(s, t);
  }

  lemma BeginPutFinals(s: Sys, e: Event)
    requires NamesOk(s) && FinalsWhole(s) && Enabled(s, e) && e.BeginPut?
    ensures NamesOk(Apply(s, e)) && FinalsWhole(Apply(s, e))
  {
  }

  lemma BeginPutWriters(s: Sys, e: Event)
    requires WritersOk(s) && Enabled(s, e) && e.BeginPut?
    ensures WritersOk(Apply(s, e))
  {
  }

  /** Changing only the content of an inode no reader holds leaves the readers alone. */
  lemma ReadersUnaffected(s: Sys, t: Sys, i: nat)
    requires Inv(s) && t.readers == s.readers && t.puts == s.puts
    requires forall j :: j in s.inodes && j != i ==> j in t.inodes && t.inodes[j] == s.inodes[j]
    requires forall r :: r in s.readers && s.readers[r].Opened? ==> s.readers[r].inode != i
    requires forall w :: w in t.writers ==>
      t.writers[w].inode == Some(i) || (w in s.writers && t.writers[w].inode == s.writers[w].inode)
    requires forall n :: n in t.names && n.Tmp? ==> t.names[n] == i || (n in s.names && t.names[n] == s.names[n])
    ensures ReadersOk(t) && ReadsOk(t)
  {
  }

  lemma OpenTmpKeeps(s: Sys, e: Event)
    requires Inv(s) && Enabled(s, e) && e.OpenTmp?
    ensures Inv(Apply(s, e))
  {
    var tmp := Tmp(s.writers[e.w].key, e.w);
    ReadersUnaffected(s, Apply(s, e), if tmp in s.names then s.names[tmp] else e.newInode);
    if tmp in s.names {
      TruncateTmp(s, e);
    } else {
      CreateTmp(s, e);
    }
  }

  lemma TruncateTmp(s: Sys, e: Event)
    requires Inv(s) && Enabled(s, e) && e.OpenTmp? && Tmp(s.writers[e.w].key, e.w) in s.names
    ensures NamesOk(Apply(s, e)) && FinalsWhole(Apply(s, e)) && WritersOk(Apply(s, e))
  {
    TruncateTmpHolds(s, e);
    TruncateTmpLinks(s, e);
  }

  lemma TruncateTmpHolds(s: Sys, e: Event)
    requires NamesOk(s) && WritersHold(s) && WritersNamed(s)
    requires Enabled(s, e) && e.OpenTmp? && Tmp(s.writers[e.w].key, e.w) in s.names
    ensures WritersHold(Apply(s, e))
  {
    var wr := s.writers[e.w];
    assert wr.bytes[..wr.written] == [];
  }

  lemma TruncateTmpLinks(s: Sys, e: Event)
    requires NamesOk(s) && WritersOk(s)
    requires Enabled(s, e) && e.OpenTmp? && Tmp(s.writers[e.w].key, e.w) in s.names
    ensures WritersNamed(Apply(s, e)) && WritersOwn(Apply(s, e)) && WritersApart(Apply(s, e))
  {
  }

  lemma CreateTmp(s: Sys, e: Event)
    requires Inv(s) && Enabled(s, e) && e.OpenTmp? && Tmp(s.writers[e.w].key, e.w) !in s.names
    ensures NamesOk(Apply(s, e)) && FinalsWhole(Apply(s, e)) && WritersOk(Apply(s, e))
  {
    CreateTmpHolds(s, e);
    CreateTmpLinks(s, e);
  }

  lemma CreateTmpHolds(s: Sys, e: Event)
    requires WritersHold(s) && Enabled(s, e) && e.OpenTmp? && Tmp(s.writers[e.w].key, e.w) !in s.names
    ensures WritersHold(Apply(s, e))
  {
    var wr := s.writers[e.w];
    assert wr.bytes[..wr.written] == [];
  }

  lemma CreateTmpLinks(s: Sys, e: Event)
    requires NamesOk(s) && WritersOk(s)
    requires Enabled(s, e) && e.OpenTmp? && Tmp(s.writers[e.w].key, e.w) !in s.names
    ensures WritersNamed(Apply(s, e)) && WritersOwn(Apply(s, e)) && WritersApart(Apply(s, e))
  {
  }

  lemma WriteSomeKeeps(s: Sys, e: Event)
    requires Inv(s) && Enabled(s, e) && e.WriteSome?
    ensures Inv(Apply(s, e))
  {
    ReadersUnaffected(s, Apply(s, e), s.writers[e.w].inode.value);
    WriteSomeHolds(s, e);
    WriteSomeFinals(s, e);
    WriteSomeLinks(s, e);
  }

  lemma WriteSomeHolds(s: Sys, e: Event)
    requires WritersHold(s) && WritersApart(s) && Enabled(s, e) && e.WriteSome?
    ensures WritersHold(Apply(s, e))
  {
    var wr := s.writers[e.w];
    SlicesJoin(wr.bytes, 0, wr.written, wr.written + e.n);
  }

  lemma WriteSomeFinals(s: Sys, e: Event)
    requires NamesOk(s) && FinalsWhole(s) && WritersNamed(s) && Enabled(s, e) && e.WriteSome?
    ensures NamesOk(Apply(s, e)) && FinalsWhole(Apply(s, e))
  {
  }

  lemma WriteSomeLinks(s: Sys, e: Event)
    requires WritersNamed(s) && WritersOwn(s) && WritersApart(s) && Enabled(s, e) && e.WriteSome?
    ensures WritersNamed(Apply(s, e)) && WritersOwn(Apply(s, e)) && WritersApart(Apply(s, e))
  {
  }

  lemma RenameKeeps(s: Sys, e: Event)
    requires Inv(s) && Enabled(s, e) && e.Rename?
    ensures Inv(Apply(s, e))
  {
    RenameFinals(s, e);
    RenameWriters(s, e);
    RenameFrame(s, e);
    FrameKeepsReaders(s, Apply(s, e));
  }

  lemma RenameFinals(s: Sys, e: Event)
    requires NamesOk(s) && FinalsWhole(s) && WritersHold(s) && WritersOwn(s) && Enabled(s, e) && e.Rename?
    ensures NamesOk(Apply(s, e)) && FinalsWhole(Apply(s, e))
  {
    var wr := s.writers[e.w];
    assert wr.bytes[..wr.written] == wr.bytes;
  }

  lemma RenameWriters(s: Sys, e: Event)
    requires NamesOk(s) && WritersOk(s) && Enabled(s, e) && e.Rename?
    ensures WritersOk(Apply(s, e))
  {
  }

  lemma AbandonKeeps(s: Sys, e: Event)
    requires Inv(s) && Enabled(s, e) && e.Abandon?
    ensures Inv(Apply(s, e))
  {
    ReadsCarryOver(s, Apply(s, e));
  }

  lemma UnlinkKeeps(s: Sys, e: Event)
    requires Inv(s) && Enabled(s, e) && e.Unlink?
    ensures Inv(Apply(s, e))
  {
    ReadsCarryOver(s, Apply(s, e));
  }

  lemma DropReaderKeeps(s: Sys, e: Event)
    requires Inv(s) && Enabled(s, e) && e.DropReader?
    ensures Inv(Apply(s, e))
  {
    ReadsCarryOver(s, Apply(s, e));
  }

  lemma BeginGetKeeps(s: Sys, e: Event)
    requires Inv(s) && Enabled(s, e) && e.BeginGet?
    ensures Inv(Apply(s, e))
  {
    ReadsCarryOver(s, Apply(s, e));
  }

  lemma StatKeeps(s: Sys, e: Event)
    requires Inv(s) && Enabled(s, e) && e.Stat?
    ensures Inv(Apply(s, e))
  {
    ReadsCarryOver(s, Apply(s, e));
  }

  lemma OpenKeeps(s: Sys, e: Event)
    requires Inv(s) && Enabled(s, e) && e.Open?
    ensures Inv(Apply(s, e))
  {
    ReadsCarryOver(s, Apply(s, e));
  }

  lemma ReadSomeKeeps(s: Sys, e: Event)
    requires Inv(s) && Enabled(s, e) && e.ReadSome?
    ensures Inv(Apply(s, e))
  {
    var rd := s.readers[e.r];
    var data := s.inodes[rd.inode];
    assert rd.buf == data[..|rd.buf|];
    assert data[..|rd.buf|] + data[|rd.buf|..|rd.buf| + e.n] == data[..|rd.buf| + e.n];
  }

  lemma FinishReadKeeps(s: Sys, e: Event)
    requires Inv(s) && Enabled(s, e) && e.FinishRead?
    ensures Inv(Apply(s, e))
  {
    var rd := s.readers[e.r];
    var data := s.inodes[rd.inode];
    assert (rd.key, data) in s.puts;
    var t := Apply(s, e);
    assert ReadOk(t.puts, t.readers[e.r]);
  }

  lemma StepKeepsInv(s: Sys, e: Event)
    requires Inv(s) && Enabled(s, e)
    ensures Inv(Apply(s, e))
  {
    match e
    case BeginPut(_, _, _) => BeginPutKeeps(s, e);
    case OpenTmp(_, _) => OpenTmpKeeps(s, e);
    case WriteSome(_, _) => WriteSomeKeeps(s, e);
    case Rename(_) => RenameKeeps(s, e);
    case ReadSome(_, _) => ReadSomeKeeps(s, e);
    case FinishRead(_) => FinishReadKeeps(s, e);
    case Abandon(_) => AbandonKeeps(s, e);
    case Unlink(_) => UnlinkKeeps(s, e);
    case BeginGet(_, _) => BeginGetKeeps(s, e);
    case Stat(_) => StatKeeps(s, e);
    case Open(_) => OpenKeeps(s, e);
    case DropReader(_) => DropReaderKeeps(s, e);
  }

  // ---- whole runs ----

  /** A run: the states an event sequence passes through. */
  ghost predicate IsRun(states: seq<Sys>, events: seq<Event>) {
    && |states| == |events| + 1
    && states[0] == EMPTY
    && forall i :: 0 <= i < |events| ==> Enabled(states[i], events[i]) && states[i + 1] == Apply(states[i], events[i])
  }

  lemma {:induction false} RunInv(states: seq<Sys>, events: seq<Event>, i: nat)
    requires IsRun(states, events) && i < |states|
    ensures Inv(states[i])
  {
    if i > 0 {
      RunInv(states, events, i - 1);
      StepKeepsInv(states[i - 1], events[i - 1]);
    }
  }

  /** Every `put` of the run writes the encoding of an object whose metadata fits the format. */
  ghost predicate PutsObjects(events: seq<Event>) {
    forall i :: 0 <= i < |events| && events[i].BeginPut? ==> IsEncoding(events[i].bytes)
  }

  predicate IsEncoding(bytes: Bytes) {
    Decode(bytes).Ok? && Representable(Decode(bytes).value) && bytes == Encode(Decode(bytes).value)
  }

  lemma EncodingsAreEncodings(o: CacheObject)
    requires Representable(o)
    ensures IsEncoding(Encode(o)) && Decode(Encode(o)) == Ok(o)
  {
    DecodeUndoesEncode(o);
  }

  /** `(key, bytes)` was put at some earlier point of the run. */
  ghost predicate PutBefore(events: seq<Event>, i: nat, key: string, bytes: Bytes) {
    exists j :: 0 <= j < i && j < |events| && events[j].BeginPut? && events[j].key == key && events[j].bytes == bytes
  }

  lemma {:induction false} PutsHappened(states: seq<Sys>, events: seq<Event>, i: nat, p: (string, Bytes))
    requires IsRun(states, events) && i < |states| && p in states[i].puts
    ensures PutBefore(events, i, p.0, p.1)
  {
    if i > 0 {
      if p in states[i - 1].puts {
        PutsHappened(states, events, i - 1, p);
        var j :| 0 <= j < i - 1 && j < |events|
                 && events[j].BeginPut? && events[j].key == p.0 && events[j].bytes == p.1;
        assert 0 <= j < i;
      } else {
        assert events[i - 1].BeginPut?;
      }
    }
  }

  /**
   At every point of every run a final name is absent or holds the complete encoding of an object put
   earlier under that key.
   */
  lemma FinalNamesHoldWholeObjects(states: seq<Sys>, events: seq<Event>, i: nat, key: string)
    requires IsRun(states, events) && PutsObjects(events) && i < |states|
    requires Final(key) in states[i].names
    ensures states[i].names[Final(key)] in states[i].inodes
    ensures var bytes := states[i].inodes[states[i].names[Final(key)]];
            IsEncoding(bytes) && PutBefore(events, i, key, bytes)
  {
    RunInv(states, events, i);
    var bytes := states[i].inodes[states[i].names[Final(key)]];
    PutsHappened(states, events, i, (key, bytes));
  }

  predicate Inline(rd: Reader)
    requires rd.Read?
  {
    rd.len <= FileCache.INLINE_MAX_BYTES
  }

  /** What a finished read hands on: the parsed file, or the header and the body streamed after it. */
  function Returned(rd: Reader): Option<CacheObject>
    requires rd.Read?
  {
    if !Inline(rd) then StreamedView(rd.buf, rd.len)
    else if Decode(rd.buf).Ok? then Some(Decode(rd.buf).value)
    else None
  }

  /** What is returned is decided by the opened file and the length from the stat. */
  lemma ReturnedFrom(rd: Reader, file: Bytes)
    requires rd.Read? && Decode(file).Ok? && |file| == rd.fileLen
    requires ReadLimit(rd.len, |file|) <= |file| && rd.buf == file[..ReadLimit(rd.len, |file|)]
    ensures Returned(rd) == if Inline(rd) then Some(Decode(file).value) else StreamedView(file, rd.len)
  {
    assert file[..|file|] == file;
    if !Inline(rd) && rd.len < |file| {
      ViewOfPrefix(file, rd.len);
    }
  }

  lemma ReturnedIs(rd: Reader, file: Bytes)
    requires rd.Read? && Decode(file).Ok? && |file| == rd.fileLen
    requires ReadLimit(rd.len, |file|) <= |file| && rd.buf == file[..ReadLimit(rd.len, |file|)]
    ensures Partial(rd, Decode(file).value)
  {
    ReturnedFrom(rd, file);
    StreamedViewIs(file, rd.len);
  }

  /** What a finished read has of the object in the file it opened, and when it has all of it. */
  predicate Partial(rd: Reader, o: CacheObject)
    requires rd.Read?
  {
    && |o.body| <= rd.fileLen
    && Returned(rd) ==
         (if Inline(rd) then Some(o)
          else if rd.len < rd.fileLen - |o.body| then None
          else Some(o.(body := Delivered(o.body, rd.len - (rd.fileLen - |o.body|)))))
    && (Returned(rd) == Some(o) <==>
          || Inline(rd) || rd.len == rd.fileLen
          || (rd.len > rd.fileLen && |o.body| % StreamedHit.STREAM_CHUNK_BYTES == 0))
  }

  /**
   A finished read is of one object put earlier under its key, never a mixture: the object itself when
   read inline, and when streamed its metadata with what a stale length leaves of its body. It is the
   whole object exactly when inline, or the stat saw the length of the opened file, or saw a longer one
   and the body is made of whole chunks.
   */
  lemma ReadsAreOfOnePut(states: seq<Sys>, events: seq<Event>, i: nat, r: nat) returns (o: CacheObject)
    requires IsRun(states, events) && PutsObjects(events) && i < |states|
    requires r in states[i].readers && states[i].readers[r].Read?
    ensures var rd := states[i].readers[r];
            && PutBefore(events, i, rd.key, Encode(o)) && |Encode(o)| == rd.fileLen
            && Partial(rd, o)
  {
    RunInv(states, events, i);
    var rd := states[i].readers[r];
    assert ReadOk(states[i].puts, rd);
    var p :| p in states[i].puts && p.0 == rd.key && |p.1| == rd.fileLen && ReadLimit(rd.len, rd.fileLen) <= |p.1|
             && rd.buf == p.1[..ReadLimit(rd.len, rd.fileLen)];
    PutsHappened(states, events, i, p);
    assert IsEncoding(p.1);
    o := Decode(p.1).value;
    ReturnedIs(rd, p.1);
  }
}

/**
 Runs in which a reader takes the length of one version of a file and opens the
 next: for every stored version too large to be read inline and every successor
 there is one, and what it serves.
 */
module StaleRun {
  import opened Prelude
  import opened CacheCodec
  import opened StreamedHit
  import opened StaleStream
  import opened DiskProtocol
  import FileCache

  // ---- runs by their events ----

  /** The events are enabled one after the other and lead from `s` to `t`. */
  predicate Leads(s: Sys, events: seq<Event>, t: Sys)
    decreases |events|
  {
    if events == [] then s == t
    else Enabled(s, events[0]) && Leads(Apply(s, events[0]), events[1..], t)
  }

  lemma {:induction false} LeadsOn(s: Sys, events: seq<Event>, t: Sys, e: Event)
    requires Leads(s, events, t) && Enabled(t, e)
    ensures Leads(s, events + [e], Apply(t, e))
    decreases |events|
  {
    var more := events + [e];
    if events == [] {
      assert more[1..] == [];
    } else {
      LeadsOn(Apply(s, events[0]), events[1..], t, e);
      assert more[1..] == events[1..] + [e];
    }
  }

  lemma {:induction false} LeadsConcat(s: Sys, a: seq<Event>, t: Sys, b: seq<Event>, u: Sys)
    requires Leads(s, a, t) && Leads(t, b, u)
    ensures Leads(s, a + b, u)
    decreases |a|
  {
    if a == [] {
      assert a + b == b;
    } else {
      LeadsConcat(Apply(s, a[0]), a[1..], t, b, u);
      assert (a + b)[1..] == a[1..] + b;
    }
  }

  lemma {:induction false} StatesOf(s: Sys, events: seq<Event>, t: Sys) returns (states: seq<Sys>)
    requires Leads(s, events, t)
    ensures |states| == |events| + 1 && states[0] == s && states[|events|] == t
    ensures forall i :: 0 <= i < |events| ==>
      Enabled(states[i], events[i]) && states[i + 1] == Apply(states[i], events[i])
    decreases |events|
  {
    if events == [] {
      states := [s];
    } else {
      var rest := StatesOf(Apply(s, events[0]), events[1..], t);
      states := [s] + rest;
    }
  }

  lemma LeadsThree(s: Sys, a: Event, b: Event, c: Event)
    requires Enabled(s, a) && Enabled(Apply(s, a), b) && Enabled(Apply(Apply(s, a), b), c)
    ensures Leads(s, [a, b, c], Apply(Apply(Apply(s, a), b), c))
  {
    assert [a, b, c][1..] == [b, c] && [b, c][1..] == [c] && [c][1..] == [];
    var s2 := Apply(Apply(s, a), b);
    assert Leads(Apply(s2, c), [], Apply(s2, c));
    assert Leads(s2, [c], Apply(s2, c));
    assert Leads(Apply(s, a), [b, c], Apply(s2, c));
  }

  // ---- the pieces ----

  function PoiseEvents(w: nat, key: string, bytes: Bytes, i: nat): seq<Event> {
    [BeginPut(w, key, bytes), OpenTmp(w, i), WriteSome(w, |bytes|)]
  }

  /** The state after a writer has filled its temporary. */
  function Poised(s: Sys, w: nat, key: string, bytes: Bytes, i: nat): Sys {
    Sys(s.names[Tmp(key, w) := i], s.inodes[i := bytes], s.writers[w := Writer(key, bytes, Some(i), |bytes|)],
        s.readers, s.puts + {(key, bytes)})
  }

  lemma Poise(s: Sys, w: nat, key: string, bytes: Bytes, i: nat)
    requires w !in s.writers && i !in s.inodes && Tmp(key, w) !in s.names
    ensures Leads(s, PoiseEvents(w, key, bytes, i), Poised(s, w, key, bytes, i))
  {
    var a, b, c := BeginPut(w, key, bytes), OpenTmp(w, i), WriteSome(w, |bytes|);
    var s2 := Apply(Apply(s, a), b);
    assert s2.inodes == s.inodes[i := []] && s2.writers == s.writers[w := Writer(key, bytes, Some(i), 0)];
    var s3 := Apply(s2, c);
    assert [] + bytes[0..|bytes|] == bytes;
    assert s3.inodes == s.inodes[i := bytes] && s3.writers == s.writers[w := Writer(key, bytes, Some(i), |bytes|)];
    LeadsThree(s, a, b, c);
  }

  /** A file stored and its replacement ready to be renamed over it. */
  predicate Replaceable(s: Sys, key: string, w: nat, first: Bytes, second: Bytes) {
    && w in s.writers && s.writers[w].key == key
    && s.writers[w].inode.Some? && s.writers[w].written == |s.writers[w].bytes|
    && Final(key) in s.names && s.names[Final(key)] in s.inodes && s.inodes[s.names[Final(key)]] == first
    && Tmp(key, w) in s.names && s.names[Tmp(key, w)] in s.inodes && s.inodes[s.names[Tmp(key, w)]] == second
  }

  /** A reader that knows the length of the first while the name leads to the second. */
  predicate Stale(t: Sys, r: nat, key: string, first: Bytes, second: Bytes) {
    && r in t.readers && t.readers[r] == Statted(key, |first|)
    && Final(key) in t.names && t.names[Final(key)] in t.inodes && t.inodes[t.names[Final(key)]] == second
  }

  lemma LateStat(s: Sys, r: nat, key: string, w: nat, first: Bytes, second: Bytes) returns (t: Sys)
    requires r !in s.readers && Replaceable(s, key, w, first, second)
    ensures Leads(s, [BeginGet(r, key), Stat(r), Rename(w)], t)
    ensures Stale(t, r, key, first, second)
  {
    var s1 := Apply(s, BeginGet(r, key));
    var s2 := Apply(s1, Stat(r));
    t := Apply(s2, Rename(w));
    LeadsThree(s, BeginGet(r, key), Stat(r), Rename(w));
  }

  lemma LateOpen(s: Sys, r: nat, key: string, first: Bytes, second: Bytes) returns (t: Sys)
    requires Stale(s, r, key, first, second)
    ensures var limit := ReadLimit(|first|, |second|);
            && limit <= |second|
            && Leads(s, [Open(r), ReadSome(r, limit), FinishRead(r)], t)
            && r in t.readers && t.readers[r] == Reader.Read(key, |first|, |second|, second[..limit])
  {
    var limit := ReadLimit(|first|, |second|);
    var s1 := Apply(s, Open(r));
    assert s1.readers[r] == Reader.Opened(key, |first|, s.names[Final(key)], []);
    var s2 := Apply(s1, ReadSome(r, limit));
    assert [] + second[0..limit] == second[..limit];
    t := Apply(s2, FinishRead(r));
    LeadsThree(s, Open(r), ReadSome(r, limit), FinishRead(r));
  }

  // ---- the run ----

  function StaleEvents(key: string, first: Bytes, second: Bytes): seq<Event> {
    PoiseEvents(0, key, first, 0) + [Rename(0)] + PoiseEvents(1, key, second, 1)
    + [BeginGet(0, key), Stat(0), Rename(1)]
    + [Open(0), ReadSome(0, ReadLimit(|first|, |second|)), FinishRead(0)]
  }

  lemma FirstStored(key: string, first: Bytes) returns (t: Sys)
    ensures Leads(EMPTY, PoiseEvents(0, key, first, 0) + [Rename(0)], t)
    ensures t.names == map[Final(key) := 0] && t.inodes == map[0 := first] && t.writers == map[] && t.readers == map[]
  {
    var s := Poised(EMPTY, 0, key, first, 0);
    Poise(EMPTY, 0, key, first, 0);
    LeadsOn(EMPTY, PoiseEvents(0, key, first, 0), s, Rename(0));
    t := Apply(s, Rename(0));
  }

  lemma StaleReader(key: string, first: Bytes, second: Bytes) returns (t: Sys)
    ensures Leads(EMPTY, StaleEvents(key, first, second), t)
    ensures ReadLimit(|first|, |second|) <= |second|
    ensures 0 in t.readers
    ensures t.readers[0] == Reader.Read(key, |first|, |second|, second[..ReadLimit(|first|, |second|)])
  {
    var a := PoiseEvents(0, key, first, 0) + [Rename(0)];
    var b := PoiseEvents(1, key, second, 1);
    var c := [BeginGet(0, key), Stat(0), Rename(1)];
    var d := [Open(0), ReadSome(0, ReadLimit(|first|, |second|)), FinishRead(0)];
    var s1 := FirstStored(key, first);
    var s2 := Poised(s1, 1, key, second, 1);
    Poise(s1, 1, key, second, 1);
    LeadsConcat(EMPTY, a, s1, b, s2);
    var s3 := LateStat(s2, 0, key, 1, first, second);
    LeadsConcat(EMPTY, a + b, s2, c, s3);
    t := LateOpen(s3, 0, key, first, second);
    LeadsConcat(EMPTY, a + b + c, s3, d, t);
  }

  lemma StaleEventsPutObjects(key: string, first: CacheObject, second: CacheObject)
    requires Representable(first) && Representable(second)
    ensures PutsObjects(StaleEvents(key, Encode(first), Encode(second)))
  {
    EncodingsAreEncodings(first);
    EncodingsAreEncodings(second);
    var es := StaleEvents(key, Encode(first), Encode(second));
    forall i | 0 <= i < |es| && es[i].BeginPut? ensures es[i].bytes == Encode(first) || es[i].bytes == Encode(second) {
      assert i == 0 || i == 4;
    }
  }

  /**
   For every object too large to be read inline and every successor there is a run of two puts and one
   get in which the get takes the length of the first and streams the second. It serves all of the
   second only if the lengths happen to suit.
   */
  lemma StaleReadRun(key: string, first: CacheObject, second: CacheObject) returns (states: seq<Sys>,
                     events: seq<Event>)
    requires Representable(first) && Representable(second)
    requires |Encode(first)| > FileCache.INLINE_MAX_BYTES
    ensures IsRun(states, events) && PutsObjects(events)
    ensures var last := states[|events|];
            && 0 in last.readers && last.readers[0].Read? && last.readers[0].key == key
            && last.readers[0].len == |Encode(first)| && last.readers[0].fileLen == |Encode(second)|
            && Partial(last.readers[0], second)
  {
    var a, b := Encode(first), Encode(second);
    events := StaleEvents(key, a, b);
    var t := StaleReader(key, a, b);
    states := StatesOf(EMPTY, events, t);
    StaleEventsPutObjects(key, first, second);
    DecodeUndoesEncode(second);
    ReturnedIs(t.readers[0], b);
  }

  lemma DeliveredShort(body: seq<Byte>, len: nat)
    requires len > |body| && |body| % STREAM_CHUNK_BYTES != 0
    ensures Delivered(body, len) < body
  {
    var n := |body| - |body| % STREAM_CHUNK_BYTES;
    assert body[..n] < body;
  }

  lemma LongerLengthServesShort(rd: Reader, o: CacheObject)
    requires rd.Read? && !Inline(rd) && Partial(rd, o) && rd.len > rd.fileLen && |o.body| % STREAM_CHUNK_BYTES != 0
    ensures Returned(rd).Some? && Returned(rd).value.body < o.body
  {
    DeliveredShort(o.body, rd.len - (rd.fileLen - |o.body|));
  }

  /** A smaller successor is served short of its last chunk, unless it consists of whole chunks. */
  lemma ShortBodyIsServed(key: string, first: CacheObject, second: CacheObject) returns (states: seq<Sys>,
                          events: seq<Event>)
    requires Representable(first) && Representable(second)
    requires |Encode(first)| > FileCache.INLINE_MAX_BYTES && |Encode(second)| < |Encode(first)|
    requires |second.body| % STREAM_CHUNK_BYTES != 0
    ensures IsRun(states, events) && PutsObjects(events)
    ensures var last := states[|events|];
            && 0 in last.readers && last.readers[0].Read?
            && Returned(last.readers[0]).Some?
            && Returned(last.readers[0]).value.body < second.body
  {
    states, events := StaleReadRun(key, first, second);
    LongerLengthServesShort(states[|events|].readers[0], second);
  }
}

/**
 A streamed hit whose length was measured on another version of the file: what
 it hands out when read to the end, and when that is the whole body.
 */
module StaleStream {
  import opened Prelude
  import opened CacheCodec
  import opened StreamedHit

  /** A hit opened on `data` with an announced body length, read until it ends. */
  function Opened(data: seq<Byte>, offset: nat, len: nat): Run {
    StreamRun(data, offset, len, [])
  }

  function Drained(data: seq<Byte>, offset: nat, len: nat): seq<Byte> {
    Flatten(ReadTimes(data, offset, Opened(data, offset, len), len + 1).chunks)
  }

  /** Too short a length cuts the body there; too long a one drops the chunk that cannot be filled. */
  function Delivered(body: seq<Byte>, len: nat): seq<Byte> {
    if len <= |body| then body[..len] else body[..|body| - |body| % STREAM_CHUNK_BYTES]
  }

  // ---- a length that is too long ----

  /** Mid-stream: whole chunks handed out so far, the next byte under the cursor. */
  predicate MidStream(body: seq<Byte>, offset: nat, len: nat, run: Run) {
    var s := run.state;
    && !s.done && !s.pending && s.start == 0 && s.end == len
    && s.position <= |body| && s.position % STREAM_CHUNK_BYTES == 0
    && s.cursor == offset + s.position
    && Flatten(run.chunks) == body[..s.position]
  }

  /** The body is the rest of the file from `offset` on. */
  predicate Tail(data: seq<Byte>, offset: nat, body: seq<Byte>) {
    offset + |body| == |data| && data[offset..] == body
  }

  lemma WholeChunk(body: seq<Byte>, data: seq<Byte>, offset: nat, len: nat, run: Run)
    requires Tail(data, offset, body) && len > |body| && MidStream(body, offset, len, run)
    requires run.state.position + STREAM_CHUNK_BYTES <= |body|
    ensures var next := AfterRead(run, ReadStream(data, offset, run.state));
            MidStream(body, offset, len, next) && next.state.position == run.state.position + STREAM_CHUNK_BYTES
  {
    var from := run.state.position;
    var to := from + STREAM_CHUNK_BYTES;
    var chunk := data[offset + from..offset + to];
    assert chunk == body[from..to] by {
      SliceOfSlice(data, offset, |data|, from, to);
    }
    ChunkExtends(body, run.chunks, chunk, 0, from, to);
  }

  lemma UnfilledChunk(body: seq<Byte>, data: seq<Byte>, offset: nat, len: nat, run: Run)
    requires Tail(data, offset, body) && len > |body| && MidStream(body, offset, len, run)
    requires run.state.position + STREAM_CHUNK_BYTES > |body|
    ensures var next := AfterRead(run, ReadStream(data, offset, run.state));
            next.state.done && next.chunks == run.chunks
    ensures run.state.position == |body| - |body| % STREAM_CHUNK_BYTES
  {
  }

  lemma {:induction false} DoneStays(data: seq<Byte>, offset: nat, run: Run, n: nat)
    requires run.state.done
    ensures ReadTimes(data, offset, run, n) == run
  {
    if n > 0 {
      assert AfterRead(run, ReadStream(data, offset, run.state)) == run;
      DoneStays(data, offset, run, n - 1);
    }
  }

  lemma {:induction false} DrainsTooLong(body: seq<Byte>, data: seq<Byte>, offset: nat, len: nat, run: Run, n: nat)
    requires Tail(data, offset, body) && len > |body| && MidStream(body, offset, len, run)
    requires n * STREAM_CHUNK_BYTES > |body| - run.state.position
    ensures var t := ReadTimes(data, offset, run, n);
            t.state.done && Flatten(t.chunks) == body[..|body| - |body| % STREAM_CHUNK_BYTES]
    decreases n
  {
    var next := AfterRead(run, ReadStream(data, offset, run.state));
    if run.state.position + STREAM_CHUNK_BYTES <= |body| {
      WholeChunk(body, data, offset, len, run);
      assert (n - 1) * STREAM_CHUNK_BYTES == n * STREAM_CHUNK_BYTES - STREAM_CHUNK_BYTES;
      DrainsTooLong(body, data, offset, len, next, n - 1);
    } else {
      UnfilledChunk(body, data, offset, len, run);
      DoneStays(data, offset, next, n - 1);
    }
  }

  // ---- any length ----

  lemma EnoughReads(n: nat)
    ensures n * STREAM_CHUNK_BYTES >= n
  {
  }

  /** What arrives, for every file and every announced length; the hit has ended by then. */
  lemma DrainedIs(data: seq<Byte>, offset: nat, len: nat)
    requires offset <= |data|
    ensures ReadTimes(data, offset, Opened(data, offset, len), len + 1).state.done
    ensures Drained(data, offset, len) == Delivered(data[offset..], len)
  {
    var body := data[offset..];
    EnoughReads(len);
    if len <= |body| {
      var cut := body[..len];
      SliceOfSlice(data, offset, |data|, 0, len);
      StreamDrains(cut, data, offset, [], len);
      assert cut[0..len] == cut;
    } else {
      EnoughReads(len + 1);
      assert body[..0] == [];
      DrainsTooLong(body, data, offset, len, Opened(data, offset, len), len + 1);
    }
  }

  lemma DeliveredWholeIff(body: seq<Byte>, len: nat)
    ensures Delivered(body, len) == body <==> len == |body| || (len > |body| && |body| % STREAM_CHUNK_BYTES == 0)
  {
    assert body[..|body|] == body;
  }

  /** The whole body arrives exactly when the length is right, or too long for a body of whole chunks. */
  lemma WholeBodyIff(data: seq<Byte>, offset: nat, len: nat)
    requires offset <= |data|
    ensures var body := data[offset..];
            Drained(data, offset, len) == body <==>
              len == |body| || (len > |body| && |body| % STREAM_CHUNK_BYTES == 0)
  {
    DrainedIs(data, offset, len);
    DeliveredWholeIff(data[offset..], len);
  }

  // ---- the object a streaming reader serves ----

  /** Metadata from the header, body by draining; nothing when the header is refused. */
  function StreamedView(file: seq<Byte>, len: nat): Option<CacheObject> {
    var e := ReadHeader(file, len);
    if e.None? then None
    else Some(CacheObject(e.value.meta0, e.value.meta1, Drained(file, e.value.offset, e.value.len)))
  }

  lemma HeaderOfFile(file: seq<Byte>, len: nat)
    requires Decode(file).Ok?
    ensures var o := Decode(file).value;
            var offset := |file| - |o.body|;
            && offset <= |file| && file[offset..] == o.body
            && ReadHeader(file, len) == if len < offset
                then None else Some(StreamEntry(o.meta0, o.meta1, offset, len - offset))
  {
    ReadersAgree(file);
    var e := ReadHeader(file, |file|).value;
    assert Region(file, e) == file[e.offset..];
  }

  lemma ViewOfFile(file: seq<Byte>, len: nat)
    requires Decode(file).Ok?
    ensures var o := Decode(file).value;
            var offset := |file| - |o.body|;
            offset <= |file| && StreamedView(file, len) ==
              if len < offset then None else Some(o.(body := Delivered(o.body, len - offset)))
  {
    var offset := |file| - |Decode(file).value.body|;
    HeaderOfFile(file, len);
    if len >= offset {
      DrainedIs(file, offset, len - offset);
    }
  }

  /** What a stale length makes of a stored object, and when it is still that object. */
  lemma StreamedViewIs(file: seq<Byte>, len: nat)
    requires Decode(file).Ok?
    ensures var o := Decode(file).value;
            var offset := |file| - |o.body|;
            && offset <= |file|
            && StreamedView(file, len) ==
                 (if len < offset then None else Some(o.(body := Delivered(o.body, len - offset))))
            && (StreamedView(file, len) == Some(o) <==>
                  len == |file| || (len > |file| && |o.body| % STREAM_CHUNK_BYTES == 0))
  {
    var o := Decode(file).value;
    var offset := |file| - |o.body|;
    ViewOfFile(file, len);
    if len >= offset {
      DeliveredWholeIff(o.body, len - offset);
    }
  }

  lemma HeaderOfPrefix(file: seq<Byte>, len: nat)
    requires len <= |file|
    ensures ReadHeader(file[..len], len) == ReadHeader(file, len)
  {
    var cut := file[..len];
    if len >= META_SIZE_LENGTH {
      assert cut[0..4] == file[0..4] && cut[4..8] == file[4..8];
      var (m0, m1) := ParseMetaSizes(file).value;
      if META_SIZE_LENGTH + m0 + m1 <= len {
        SliceOfSlice(file, 0, len, 8, 8 + m0);
        SliceOfSlice(file, 0, len, 8 + m0, 8 + m0 + m1);
      }
    }
  }

  lemma TailOfPrefix(file: seq<Byte>, offset: nat, len: nat)
    requires offset <= len <= |file|
    ensures |file[..len][offset..]| == len - offset
    ensures file[..len][offset..][..len - offset] == file[offset..][..len - offset]
  {
  }

  lemma DrainedOfPrefix(file: seq<Byte>, offset: nat, len: nat)
    requires offset <= len <= |file|
    ensures Drained(file[..len], offset, len - offset) == Drained(file, offset, len - offset)
  {
    DrainedIs(file, offset, len - offset);
    DrainedIs(file[..len], offset, len - offset);
    TailOfPrefix(file, offset, len);
  }

  /** The reader looks at no byte beyond the length it was told. */
  lemma ViewOfPrefix(file: seq<Byte>, len: nat)
    requires len <= |file|
    ensures StreamedView(file[..len], len) == StreamedView(file, len)
  {
    HeaderOfPrefix(file, len);
    var e := ReadHeader(file, len);
    if e.Some? {
      DrainedOfPrefix(file, e.value.offset, len);
    }
  }
}

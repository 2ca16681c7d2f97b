/**
 The cache hit handler: one body, handed out either as one in-memory slice or
 chunk by chunk off an open file, with seeks in between.
 */
module StreamedHit {
  import opened Prelude
  import opened CacheCodec

  const STREAM_CHUNK_BYTES: nat := 64 * 1024

  /** The fields of `CompleteHit` that change, plus the cursor of the open file. */
  datatype HitState = HitState(done: bool, start: nat, end: nat, position: nat, pending: bool, cursor: nat)

  /** `Panic` is the out-of-order slice bound `Bytes::slice` refuses. */
  datatype ReadOutcome = Chunk(data: seq<Byte>) | End | Panic

  // ---- one call, as a function of the state ----

  function SeekNext(len: nat, s: HitState, start: nat, end: Option<nat>): Option<HitState> {
    if start >= len then None
    else
      var rangeEnd := if end.Some? then Min(len, end.value) else len;
      Some(s.(start := start, end := rangeEnd, done := false, position := start, pending := true))
  }

  function ReadInline(body: seq<Byte>, s: HitState): (HitState, ReadOutcome)
    requires s.end <= |body|
  {
    if s.done then (s, End)
    else if s.start > s.end then (s.(done := true), Panic)
    else (s.(done := true), Chunk(body[s.start..s.end]))
  }

  function Reposition(offset: nat, s: HitState): HitState {
    if s.pending then s.(cursor := offset + s.start, position := s.start, pending := false) else s
  }

  function ReadStream(data: seq<Byte>, offset: nat, s0: HitState): (HitState, ReadOutcome) {
    if s0.done then (s0, End)
    else
      var s := Reposition(offset, s0);
      if s.position >= s.end then (s.(done := true), End)
      else
        var want := Min(s.end - s.position, STREAM_CHUNK_BYTES);
        if s.cursor + want <= |data| then
          (s.(position := s.position + want, cursor := s.cursor + want), Chunk(data[s.cursor..s.cursor + want]))
        else
          (s.(done := true, cursor := Max(s.cursor, |data|)), End)
  }

  // ---- the handler itself ----

  class CompleteHit {
    /** The whole body when it is in memory; otherwise it lies in `file` at `offset`. */
    const inlineBody: Option<seq<Byte>>
    const file: FileHandle
    const offset: nat
    const len: nat
    var done: bool
    var rangeStart: nat
    var rangeEnd: nat
    var position: nat
    var seekPending: bool

    ghost predicate Valid()
      reads this
    {
      && rangeEnd <= len
      && (inlineBody.Some? ==> len == |inlineBody.value|)
    }

    ghost function State(): HitState
      reads this, file
    {
      HitState(done, rangeStart, rangeEnd, position, seekPending, file.pos)
    }

    constructor (inlineBody: Option<seq<Byte>>, file: FileHandle, offset: nat, streamLen: nat)
      ensures Valid() && this.inlineBody == inlineBody && this.file == file && this.offset == offset
      ensures len == if inlineBody.Some? then |inlineBody.value| else streamLen
      ensures State() == HitState(false, 0, len, 0, false, file.pos)
    {
      this.inlineBody := inlineBody;
      this.file := file;
      this.offset := offset;
      var n := if inlineBody.Some? then |inlineBody.value| else streamLen;
      len := n;
      done := false;
      rangeStart := 0;
      rangeEnd := n;
      position := 0;
      seekPending := false;
    }

    method Seek(start: nat, end: Option<nat>) returns (ok: bool)
      requires Valid()
      modifies this
      ensures Valid()
      ensures ok == old(SeekNext(len, State(), start, end)).Some?
      ensures State() == if ok then old(SeekNext(len, State(), start, end)).value else old(State())
    {
      if start >= len {
        return false;
      }
      rangeStart := start;
      rangeEnd := match end
        case Some(e) => Min(len, e)
        case None => len;
      done := false;
      position := start;
      seekPending := true;
      return true;
    }

    method ReadBody() returns (r: ReadOutcome)
      requires Valid()
      modifies this, file
      ensures Valid()
      ensures inlineBody.Some? ==> (State(), r) == old(ReadInline(inlineBody.value, State()))
      ensures inlineBody.None? ==> (State(), r) == old(ReadStream(file.data, offset, State()))
    {
      if done {
        return End;
      }
      if inlineBody.Some? {
        done := true;
        if rangeStart > rangeEnd {
          return Panic;
        }
        return Chunk(inlineBody.value[rangeStart..rangeEnd]);
      }
      if seekPending {
        file.SeekTo(offset + rangeStart);
        position := rangeStart;
        seekPending := false;
      }
      if position >= rangeEnd {
        done := true;
        return End;
      }
      var want := Min(rangeEnd - position, STREAM_CHUNK_BYTES);
      var buf := file.ReadExact(want);
      if buf.Err? {
        done := true;
        return End;
      }
      position := position + want;
      return Chunk(buf.value);
    }
  }

  // ---- whole runs ----

  datatype Op = Seek(start: nat, end: Option<nat>) | Read

  /** The handler after some calls, and what the reads since the last accepted seek handed out. */
  datatype Run = Run(state: HitState, chunks: seq<seq<Byte>>, panicked: bool)

  function Flatten(chunks: seq<seq<Byte>>): seq<Byte> {
    if chunks == [] then [] else Flatten(chunks[..|chunks| - 1]) + chunks[|chunks| - 1]
  }

  /** A seek whose end, when given, does not precede its start. */
  predicate Ordered(op: Op) {
    op.Seek? && op.end.Some? ==> op.start <= op.end.value
  }

  function AfterSeek(len: nat, run: Run, op: Op): Run
    requires op.Seek?
  {
    var next := SeekNext(len, run.state, op.start, op.end);
    if next.None? then run else Run(next.value, [], run.panicked)
  }

  function AfterRead(run: Run, r: (HitState, ReadOutcome)): Run {
    match r.1
    case Chunk(data) => Run(r.0, run.chunks + [data], run.panicked)
    case End => Run(r.0, run.chunks, run.panicked)
    case Panic => Run(r.0, run.chunks, true)
  }

  function InlineRun(body: seq<Byte>, ops: seq<Op>): (run: Run)
    ensures run.state.end <= |body|
  {
    if ops == [] then Run(HitState(false, 0, |body|, 0, false, 0), [], false)
    else
      var before := InlineRun(body, ops[..|ops| - 1]);
      var op := ops[|ops| - 1];
      if op.Seek? then AfterSeek(|body|, before, op) else AfterRead(before, ReadInline(body, before.state))
  }

  /** The file is opened with the cursor parked on the first body byte. */
  function StreamRun(data: seq<Byte>, offset: nat, len: nat, ops: seq<Op>): Run {
    if ops == [] then Run(HitState(false, 0, len, 0, false, offset), [], false)
    else
      var before := StreamRun(data, offset, len, ops[..|ops| - 1]);
      var op := ops[|ops| - 1];
      if op.Seek? then AfterSeek(len, before, op) else AfterRead(before, ReadStream(data, offset, before.state))
  }

  /** The body lies in the file at `offset`. */
  predicate Holds(data: seq<Byte>, offset: nat, body: seq<Byte>) {
    offset + |body| <= |data| && data[offset..offset + |body|] == body
  }

  /** Where the next streamed byte comes from, whether or not a seek is pending. */
  function Frontier(s: HitState): nat {
    if s.pending then s.start else s.position
  }

  predicate StreamInv(body: seq<Byte>, offset: nat, run: Run) {
    var s := run.state;
    && !run.panicked
    && s.start <= Frontier(s) <= s.end <= |body|
    && (s.pending || s.cursor == offset + s.position)
    && Flatten(run.chunks) == body[s.start..Frontier(s)]
    && (s.done ==> Frontier(s) == s.end)
    && Sized(run.chunks)
  }

  /** No chunk is empty or larger than the buffer. */
  predicate Sized(chunks: seq<seq<Byte>>) {
    forall i :: 0 <= i < |chunks| ==> 0 < |chunks[i]| <= STREAM_CHUNK_BYTES
  }

  lemma FlattenAppend(chunks: seq<seq<Byte>>, chunk: seq<Byte>)
    ensures Flatten(chunks + [chunk]) == Flatten(chunks) + chunk
  {
    assert (chunks + [chunk])[..|chunks|] == chunks;
  }

  lemma ChunkExtends(body: seq<Byte>, chunks: seq<seq<Byte>>, chunk: seq<Byte>, start: nat, position: nat, next: nat)
    requires start <= position <= next <= |body|
    requires Flatten(chunks) == body[start..position] && chunk == body[position..next]
    ensures Flatten(chunks + [chunk]) == body[start..next]
  {
    FlattenAppend(chunks, chunk);
    SlicesJoin(body, start, position, next);
  }

  /** A read that delivers: the bytes of the body from the frontier on. */
  lemma DeliveredChunk(body: seq<Byte>, data: seq<Byte>, offset: nat, s0: HitState)
    requires Holds(data, offset, body) && !s0.done && s0.end <= |body|
    requires s0.pending || s0.cursor == offset + s0.position
    requires Frontier(s0) < s0.end
    ensures var from := Frontier(s0);
            var next := from + Min(s0.end - from, STREAM_CHUNK_BYTES);
            ReadStream(data, offset, s0) ==
              (s0.(position := next, cursor := offset + next, pending := false), Chunk(body[from..next]))
  {
    var from := Frontier(s0);
    var next := from + Min(s0.end - from, STREAM_CHUNK_BYTES);
    SliceOfSlice(data, offset, offset + |body|, from, next);
  }

  lemma ChunkKeepsInv(body: seq<Byte>, offset: nat, run: Run, next: nat)
    requires StreamInv(body, offset, run) && !run.state.done
    requires Frontier(run.state) < next <= run.state.end && next - Frontier(run.state) <= STREAM_CHUNK_BYTES
    ensures var s := run.state.(position := next, cursor := offset + next, pending := false);
            StreamInv(body, offset, Run(s, run.chunks + [body[Frontier(run.state)..next]], run.panicked))
  {
    ChunkExtends(body, run.chunks, body[Frontier(run.state)..next], run.state.start, Frontier(run.state), next);
  }

  lemma EndKeepsInv(body: seq<Byte>, offset: nat, run: Run)
    requires StreamInv(body, offset, run) && Frontier(run.state) == run.state.end
    ensures StreamInv(body, offset, Run(Reposition(offset, run.state).(done := true), run.chunks, run.panicked))
  {
  }

  lemma EndedRead(data: seq<Byte>, offset: nat, s: HitState)
    requires !s.done && Frontier(s) >= s.end
    ensures ReadStream(data, offset, s) == (Reposition(offset, s).(done := true), End)
  {
  }

  /** The same read in terms of the body alone. */
  function BodyRead(body: seq<Byte>, offset: nat, run: Run): Run
    requires StreamInv(body, offset, run)
  {
    var s := run.state;
    var from := Frontier(s);
    if s.done then run
    else if from >= s.end then Run(Reposition(offset, s).(done := true), run.chunks, run.panicked)
    else
      var next := from + Min(s.end - from, STREAM_CHUNK_BYTES);
      Run(s.(position := next, cursor := offset + next, pending := false), run.chunks + [body[from..next]],
          run.panicked)
  }

  lemma ReadIsBodyRead(body: seq<Byte>, data: seq<Byte>, offset: nat, run: Run)
    requires Holds(data, offset, body) && StreamInv(body, offset, run)
    ensures AfterRead(run, ReadStream(data, offset, run.state)) == BodyRead(body, offset, run)
  {
    if !run.state.done {
      if Frontier(run.state) >= run.state.end {
        EndedRead(data, offset, run.state);
      } else {
        DeliveredChunk(body, data, offset, run.state);
      }
    }
  }

  lemma BodyReadKeepsInv(body: seq<Byte>, offset: nat, run: Run)
    requires StreamInv(body, offset, run)
    ensures StreamInv(body, offset, BodyRead(body, offset, run))
  {
    var s := run.state;
    var from := Frontier(s);
    if from >= s.end {
      EndKeepsInv(body, offset, run);
    } else {
      ChunkKeepsInv(body, offset, run, from + Min(s.end - from, STREAM_CHUNK_BYTES));
    }
  }

  lemma StreamReadKeepsInv(body: seq<Byte>, data: seq<Byte>, offset: nat, run: Run)
    requires Holds(data, offset, body) && StreamInv(body, offset, run)
    ensures StreamInv(body, offset, AfterRead(run, ReadStream(data, offset, run.state)))
  {
    ReadIsBodyRead(body, data, offset, run);
    BodyReadKeepsInv(body, offset, run);
  }

  lemma {:induction false} StreamRunInv(body: seq<Byte>, data: seq<Byte>, offset: nat, ops: seq<Op>)
    requires Holds(data, offset, body)
    requires forall i :: 0 <= i < |ops| ==> Ordered(ops[i])
    ensures StreamInv(body, offset, StreamRun(data, offset, |body|, ops))
  {
    if ops != [] {
      StreamRunInv(body, data, offset, ops[..|ops| - 1]);
      var before := StreamRun(data, offset, |body|, ops[..|ops| - 1]);
      if ops[|ops| - 1].Read? {
        StreamReadKeepsInv(body, data, offset, before);
      } else {
        assert Ordered(ops[|ops| - 1]);
      }
    }
  }

  lemma {:induction false} InlineRunInv(body: seq<Byte>, ops: seq<Op>)
    requires forall i :: 0 <= i < |ops| ==> Ordered(ops[i])
    ensures var run := InlineRun(body, ops);
            && !run.panicked
            && run.state.start <= run.state.end
            && run.chunks == if run.state.done then [body[run.state.start..run.state.end]] else []
  {
    if ops != [] {
      InlineRunInv(body, ops[..|ops| - 1]);
      assert Ordered(ops[|ops| - 1]);
    }
  }

  lemma {:induction false} RunsShareRange(body: seq<Byte>, data: seq<Byte>, offset: nat, ops: seq<Op>)
    ensures InlineRun(body, ops).state.start == StreamRun(data, offset, |body|, ops).state.start
    ensures InlineRun(body, ops).state.end == StreamRun(data, offset, |body|, ops).state.end
  {
    if ops != [] {
      RunsShareRange(body, data, offset, ops[..|ops| - 1]);
    }
  }

  /** The range asked for: that of the last seek that starts inside the body, cut at its end; else all of it. */
  function Requested(len: nat, ops: seq<Op>): (nat, nat) {
    if ops == [] then (0, len)
    else
      var op := ops[|ops| - 1];
      if op.Seek? && op.start < len
      then (op.start, if op.end.None? || op.end.value > len then len else op.end.value)
      else Requested(len, ops[..|ops| - 1])
  }

  lemma {:induction false} RangeIsRequested(data: seq<Byte>, offset: nat, len: nat, ops: seq<Op>)
    ensures var s := StreamRun(data, offset, len, ops).state; (s.start, s.end) == Requested(len, ops)
  {
    if ops != [] {
      RangeIsRequested(data, offset, len, ops[..|ops| - 1]);
    }
  }

  /** The first read after a seek completes an in-memory hit; so does the first read of all. */
  lemma InlineReadEnds(body: seq<Byte>, ops: seq<Op>)
    requires forall i :: 0 <= i < |ops| ==> Ordered(ops[i])
    ensures var run, (start, end) := InlineRun(body, ops + [Read]), Requested(|body|, ops);
            && run.state.done && start <= end <= |body| && run.chunks == [body[start..end]]
  {
    var more := ops + [Read];
    assert more[..|more| - 1] == ops;
    InlineRunInv(body, ops);
    RunsShareRange(body, body, 0, ops);
    RangeIsRequested(body, 0, |body|, ops);
  }

  lemma FlattenOne(chunk: seq<Byte>)
    ensures Flatten([chunk]) == chunk
  {
    FlattenAppend([], chunk);
    assert [] + [chunk] == [chunk];
  }

  lemma InlineHandsOut(body: seq<Byte>, ops: seq<Op>)
    requires forall i :: 0 <= i < |ops| ==> Ordered(ops[i])
    ensures Requested(|body|, ops).0 <= Requested(|body|, ops).1 <= |body|
    ensures var run, (start, end) := InlineRun(body, ops), Requested(|body|, ops);
            && !run.panicked
            && (run.state.done ==> Flatten(run.chunks) == body[start..end])
            && (!run.state.done ==> run.chunks == [])
  {
    InlineRunInv(body, ops);
    RunsShareRange(body, body, 0, ops);
    RangeIsRequested(body, 0, |body|, ops);
    var s := InlineRun(body, ops).state;
    FlattenOne(body[s.start..s.end]);
  }

  /**
   A streamed hit refines an in-memory hit. After any calls whose seeks are ordered, the chunks since
   the last seek are a prefix of what the in-memory hit hands out for the same calls, all of it once
   reading has ended, and the range is the one asked for; no chunk exceeds 64 KiB and the file cursor is
   never adrift.
   */
  lemma StreamRefinesInline(body: seq<Byte>, data: seq<Byte>, offset: nat, ops: seq<Op>)
    requires Holds(data, offset, body)
    requires forall i :: 0 <= i < |ops| ==> Ordered(ops[i])
    ensures Requested(|body|, ops).0 <= Requested(|body|, ops).1 <= |body|
    ensures var s := StreamRun(data, offset, |body|, ops);
            var range := body[Requested(|body|, ops).0..Requested(|body|, ops).1];
            && Flatten(s.chunks) <= range
            && (s.state.done ==> Flatten(s.chunks) == range)
            && (forall i :: 0 <= i < |s.chunks| ==> |s.chunks[i]| <= 65536)
            && (s.state.pending || s.state.cursor == offset + s.state.position)
            && (InlineRun(body, ops).state.done ==> Flatten(InlineRun(body, ops).chunks) == range)
            && (!InlineRun(body, ops).state.done ==> InlineRun(body, ops).chunks == [])
            && !s.panicked && !InlineRun(body, ops).panicked
  {
    StreamRunInv(body, data, offset, ops);
    InlineHandsOut(body, ops);
    RangeIsRequested(data, offset, |body|, ops);
    var s := StreamRun(data, offset, |body|, ops).state;
    assert body[s.start..s.end][..Frontier(s) - s.start] == body[s.start..Frontier(s)];
  }

  /** One read moves the frontier by a chunk or to the end, and at the end the hit is done. */
  lemma ReadProgress(body: seq<Byte>, offset: nat, run: Run)
    requires StreamInv(body, offset, run)
    ensures var s, t := run.state, BodyRead(body, offset, run).state;
            && t.start == s.start && t.end == s.end
            && Frontier(t) == Min(s.end, Frontier(s) + STREAM_CHUNK_BYTES)
            && (Frontier(s) == s.end ==> t.done)
  {
  }

  function ReadTimes(data: seq<Byte>, offset: nat, run: Run, n: nat): Run
    decreases n
  {
    if n == 0 then run
    else ReadTimes(data, offset, AfterRead(run, ReadStream(data, offset, run.state)), n - 1)
  }

  lemma ReadOnce(body: seq<Byte>, data: seq<Byte>, offset: nat, run: Run, n: nat) returns (next: Run)
    requires Holds(data, offset, body) && StreamInv(body, offset, run)
    ensures ReadTimes(data, offset, run, n + 1) == ReadTimes(data, offset, next, n)
    ensures StreamInv(body, offset, next) && next.state.start == run.state.start && next.state.end == run.state.end
    ensures Frontier(next.state) == Min(run.state.end, Frontier(run.state) + STREAM_CHUNK_BYTES)
    ensures Frontier(run.state) == run.state.end ==> next.state.done
  {
    next := BodyRead(body, offset, run);
    ReadIsBodyRead(body, data, offset, run);
    BodyReadKeepsInv(body, offset, run);
    ReadProgress(body, offset, run);
  }

  /** The bytes of `n` full chunks. */
  function ChunkBytes(n: nat): nat {
    if n == 0 then 0 else ChunkBytes(n - 1) + STREAM_CHUNK_BYTES
  }

  lemma {:induction false} ChunkBytesIs(n: nat)
    ensures ChunkBytes(n) == n * STREAM_CHUNK_BYTES
  {
    if n > 0 {
      ChunkBytesIs(n - 1);
    }
  }

  lemma {:induction false} ReadTimesDrains(body: seq<Byte>, data: seq<Byte>, offset: nat, run: Run, n: nat)
    requires Holds(data, offset, body) && StreamInv(body, offset, run)
    requires ChunkBytes(n) >= run.state.end - Frontier(run.state)
    ensures var t := ReadTimes(data, offset, run, n + 1);
            t.state.done && Flatten(t.chunks) == body[run.state.start..run.state.end]
    decreases n
  {
    var next := ReadOnce(body, data, offset, run, n);
    if n == 0 {
      DoneIsWhole(body, offset, next);
    } else {
      ReadTimesDrains(body, data, offset, next, n - 1);
    }
  }

  lemma DoneIsWhole(body: seq<Byte>, offset: nat, run: Run)
    requires StreamInv(body, offset, run) && run.state.done
    ensures Flatten(run.chunks) == body[run.state.start..run.state.end]
  {
  }

  /**
   Reading on always ends with the whole range delivered: after any ordered calls, one read per chunk
   of what is left and one more to see the end.
   */
  lemma StreamDrains(body: seq<Byte>, data: seq<Byte>, offset: nat, ops: seq<Op>, n: nat)
    requires Holds(data, offset, body)
    requires forall i :: 0 <= i < |ops| ==> Ordered(ops[i])
    requires var s := StreamRun(data, offset, |body|, ops).state; n * STREAM_CHUNK_BYTES >= s.end - Frontier(s)
    ensures var s := StreamRun(data, offset, |body|, ops).state; s.start <= s.end <= |body|
    ensures var run := StreamRun(data, offset, |body|, ops);
            var t := ReadTimes(data, offset, run, n + 1);
            t.state.done && Flatten(t.chunks) == body[run.state.start..run.state.end]
  {
    StreamRunInv(body, data, offset, ops);
    ChunkBytesIs(n);
    ReadTimesDrains(body, data, offset, StreamRun(data, offset, |body|, ops), n);
  }

  /**
   Where the two bodies part: after an accepted seek the in-memory read fails exactly when the range
   is inverted, and then the streamed read just reports the end.
   */
  lemma InvertedRange(body: seq<Byte>, data: seq<Byte>, offset: nat, s: HitState, start: nat, end: Option<nat>)
    requires SeekNext(|body|, s, start, end).Some?
    ensures var t := SeekNext(|body|, s, start, end).value;
            && (ReadInline(body, t).1.Panic? <==> end.Some? && end.value < start)
            && (end.Some? && end.value < start ==> ReadStream(data, offset, t).1.End?)
  {
  }
}

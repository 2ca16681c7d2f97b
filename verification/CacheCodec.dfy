/**
 The on-disk format of a cached object and its two readers: the whole-file
 parser and the header-only reader of the streaming path.
 */
module CacheCodec {
  import opened Prelude

  datatype CacheObject = CacheObject(meta0: seq<Byte>, meta1: seq<Byte>, body: seq<Byte>)

  const META_SIZE_LENGTH: nat := 8

  // ---- big-endian length fields, of any width ----

  function Pow256(width: nat): (r: nat)
    ensures r >= 1
  {
    if width == 0 then 1 else 256 * Pow256(width - 1)
  }

  function PutBE(n: nat, width: nat): (r: seq<Byte>)
    ensures |r| == width
  {
    if width == 0 then [] else PutBE(n / 256, width - 1) + [n % 256]
  }

  function GetBE(b: seq<Byte>): nat {
    if b == [] then 0 else GetBE(b[..|b| - 1]) * 256 + b[|b| - 1]
  }

  lemma DividedBound(n: nat, limit: nat)
    requires n < 256 * limit
    ensures n / 256 < limit && n == n / 256 * 256 + n % 256
  {
  }

  lemma {:induction false} GetUndoesPut(n: nat, width: nat)
    requires n < Pow256(width)
    ensures GetBE(PutBE(n, width)) == n
  {
    if width > 0 {
      var b := PutBE(n, width);
      DividedBound(n, Pow256(width - 1));
      GetUndoesPut(n / 256, width - 1);
      assert b[..|b| - 1] == PutBE(n / 256, width - 1);
    }
  }

  lemma {:induction false} PutUndoesGet(b: seq<Byte>)
    ensures GetBE(b) < Pow256(|b|)
    ensures PutBE(GetBE(b), |b|) == b
  {
    if b != [] {
      PutUndoesGet(b[..|b| - 1]);
      assert GetBE(b) / 256 == GetBE(b[..|b| - 1]);
      assert b == b[..|b| - 1] + [b[|b| - 1]];
    }
  }

  lemma Pow256Four()
    ensures Pow256(4) == U32_LIMIT
  {
    assert Pow256(2) == 0x1_0000;
  }

  // ---- encoding ----

  /** `len as u32` keeps only the low 32 bits of a length. */
  function LengthField(n: nat): seq<Byte> {
    PutBE(n % U32_LIMIT, 4)
  }

  function Encode(o: CacheObject): seq<Byte> {
    LengthField(|o.meta0|) + LengthField(|o.meta1|) + o.meta0 + o.meta1 + o.body
  }

  // ---- the whole-file parser ----

  function ParseMetaSizes(header: seq<Byte>): (r: Result<(nat, nat)>)
    ensures r.Ok? <==> |header| >= META_SIZE_LENGTH
    ensures r.Ok? ==> r.value.0 < U32_LIMIT && r.value.1 < U32_LIMIT
  {
    if |header| < META_SIZE_LENGTH then Err
    else
      PutUndoesGet(header[0..4]);
      PutUndoesGet(header[4..8]);
      Pow256Four();
      Ok((GetBE(header[0..4]), GetBE(header[4..8])))
  }

  function Decode(value: seq<Byte>): Result<CacheObject> {
    var sizes := ParseMetaSizes(value);
    if sizes.Err? then Err
    else
      var (m0, m1) := sizes.value;
      var data := value[META_SIZE_LENGTH..];
      if m0 + m1 > |data| then Err
      else Ok(CacheObject(data[..m0], data[m0..m0 + m1], data[m0 + m1..]))
  }

  /** Both metadata halves fit the 32-bit length fields. */
  predicate Representable(o: CacheObject) {
    |o.meta0| < U32_LIMIT && |o.meta1| < U32_LIMIT
  }

  lemma ParsedFields(a: seq<Byte>, b: seq<Byte>, c: seq<Byte>, d: seq<Byte>, e: seq<Byte>)
    requires |a| == 4 && |b| == 4
    ensures ParseMetaSizes(a + b + c + d + e) == Ok((GetBE(a), GetBE(b)))
  {
    var all := a + b + c + d + e;
    assert all[0..4] == a && all[4..8] == b;
  }

  lemma LowBits(n: nat)
    requires n < U32_LIMIT
    ensures n % U32_LIMIT == n
  {
  }

  lemma RoundTripAtWidth(n: nat, width: nat)
    requires n < U32_LIMIT == Pow256(width)
    ensures |PutBE(n % U32_LIMIT, width)| == width && GetBE(PutBE(n % U32_LIMIT, width)) == n
  {
    LowBits(n);
    GetUndoesPut(n, width);
  }

  lemma FieldRoundTrip(n: nat)
    requires n < U32_LIMIT
    ensures |LengthField(n)| == 4 && GetBE(LengthField(n)) == n
  {
    Pow256Four();
    RoundTripAtWidth(n, 4);
  }

  lemma EncodeHeader(o: CacheObject)
    requires Representable(o)
    ensures ParseMetaSizes(Encode(o)) == Ok((|o.meta0|, |o.meta1|))
  {
    FieldRoundTrip(|o.meta0|);
    FieldRoundTrip(|o.meta1|);
    ParsedFields(LengthField(|o.meta0|), LengthField(|o.meta1|), o.meta0, o.meta1, o.body);
  }

  lemma LastByte(b: seq<Byte>)
    requires b != []
    ensures GetBE(b) == GetBE(b[..|b| - 1]) * 256 + b[|b| - 1]
  {
  }

  lemma FourBytes(b: seq<Byte>)
    requires |b| == 4
    ensures GetBE(b) == b[0] as int * 0x100_0000 + b[1] as int * 0x1_0000 + b[2] as int * 0x100 + b[3]
  {
    var three, two, one := b[..3], b[..2], b[..1];
    assert three[..2] == two && two[..1] == one && one[..0] == [];
    LastByte(b);
    LastByte(three);
    LastByte(two);
    LastByte(one);
  }

  /** The layout: two lengths of four bytes each, the most significant first, then the halves, then the body. */
  lemma EncodeLayout(o: CacheObject)
    requires Representable(o)
    ensures var e, m0, m1 := Encode(o), |o.meta0|, |o.meta1|;
            && |e| == 8 + m0 + m1 + |o.body|
            && m0 == e[0] as int * 0x100_0000 + e[1] as int * 0x1_0000 + e[2] as int * 0x100 + e[3]
            && m1 == e[4] as int * 0x100_0000 + e[5] as int * 0x1_0000 + e[6] as int * 0x100 + e[7]
            && e[8..8 + m0] == o.meta0 && e[8 + m0..8 + m0 + m1] == o.meta1 && e[8 + m0 + m1..] == o.body
  {
    var e := Encode(o);
    EncodeHeader(o);
    FourBytes(e[0..4]);
    FourBytes(e[4..8]);
  }

  /** Decoding undoes encoding exactly for the objects whose metadata fits. */
  lemma DecodeUndoesEncode(o: CacheObject)
    ensures Decode(Encode(o)) == Ok(o) <==> Representable(o)
  {
    var e := Encode(o);
    var data := e[META_SIZE_LENGTH..];
    assert data == o.meta0 + o.meta1 + o.body;
    if Representable(o) {
      EncodeHeader(o);
      assert data[..|o.meta0|] == o.meta0;
      assert data[|o.meta0|..|o.meta0| + |o.meta1|] == o.meta1;
      assert data[|o.meta0| + |o.meta1|..] == o.body;
    } else {
      // a decoded half is shorter than 2^32, the encoded one is not
      assert Decode(e).Ok? ==> Representable(Decode(e).value);
    }
  }

  /** Encoding undoes decoding on every accepted byte string, and what decoding yields always fits. */
  lemma EncodeUndoesDecode(value: seq<Byte>)
    requires Decode(value).Ok?
    ensures Representable(Decode(value).value)
    ensures Encode(Decode(value).value) == value
  {
    var o := Decode(value).value;
    HeaderBytes(value);
    Reassociate(LengthField(|o.meta0|), LengthField(|o.meta1|), o.meta0, o.meta1, o.body);
    RestOfFile(value);
  }

  lemma RestOfFile(value: seq<Byte>)
    requires Decode(value).Ok?
    ensures var o := Decode(value).value; value[8..] == o.meta0 + o.meta1 + o.body
  {
  }

  lemma Reassociate(a: seq<Byte>, b: seq<Byte>, c: seq<Byte>, d: seq<Byte>, e: seq<Byte>)
    ensures a + b + (c + d + e) == a + b + c + d + e
  {
  }

  lemma HeaderBytes(value: seq<Byte>)
    requires |value| >= META_SIZE_LENGTH
    ensures var (m0, m1) := ParseMetaSizes(value).value;
            value == LengthField(m0) + LengthField(m1) + value[8..]
  {
    Pow256Four();
    FieldBytes(value[0..4], 4);
    FieldBytes(value[4..8], 4);
    assert value == value[0..4] + value[4..8] + value[8..];
  }

  lemma FieldBytes(field: seq<Byte>, width: nat)
    requires |field| == width && Pow256(width) == U32_LIMIT
    ensures PutBE(GetBE(field) % U32_LIMIT, width) == field
  {
    PutUndoesGet(field);
  }

  lemma EncodeInjective(a: CacheObject, b: CacheObject)
    requires Representable(a) && Representable(b)
    requires Encode(a) == Encode(b)
    ensures a == b
  {
    DecodeUndoesEncode(a);
    DecodeUndoesEncode(b);
  }

  /** A cut inside the header or metadata is rejected; a later cut only shortens the body. */
  lemma TruncationRejected(o: CacheObject, k: nat)
    requires Representable(o) && k <= |Encode(o)|
    ensures Decode(Encode(o)[..k]).Err? <==> k < META_SIZE_LENGTH + |o.meta0| + |o.meta1|
    ensures k >= META_SIZE_LENGTH + |o.meta0| + |o.meta1| ==>
      Decode(Encode(o)[..k]) == Ok(o.(body := o.body[..k - META_SIZE_LENGTH - |o.meta0| - |o.meta1|]))
  {
    var e := Encode(o);
    var cut := e[..k];
    var metas := |o.meta0| + |o.meta1|;
    if k >= META_SIZE_LENGTH {
      EncodeHeader(o);
      assert cut[0..4] == e[0..4] && cut[4..8] == e[4..8];
      assert e[META_SIZE_LENGTH..] == o.meta0 + o.meta1 + o.body;
      if k >= META_SIZE_LENGTH + metas {
        var data := cut[META_SIZE_LENGTH..];
        assert data == e[META_SIZE_LENGTH..][..k - META_SIZE_LENGTH];
        assert data == o.meta0 + o.meta1 + o.body[..k - META_SIZE_LENGTH - metas];
        assert data[..|o.meta0|] == o.meta0;
        assert data[|o.meta0|..metas] == o.meta1;
        assert data[metas..] == o.body[..k - META_SIZE_LENGTH - metas];
      }
    }
  }

  // ---- an open file: contents plus a cursor ----

  class FileHandle {
    const data: seq<Byte>
    var pos: nat

    constructor (data: seq<Byte>)
      ensures this.data == data && pos == 0
    {
      this.data := data;
      pos := 0;
    }

    method SeekTo(p: nat)
      modifies this
      ensures pos == p
    {
      pos := p;
    }

    /** `read_exact`: all `n` bytes, or `UnexpectedEof` with the cursor at the end. */
    method ReadExact(n: nat) returns (r: Result<seq<Byte>>)
      modifies this
      ensures r.Ok? <==> old(pos) + n <= |data| || n == 0
      ensures r.Ok? && n > 0 ==> r.value == data[old(pos)..old(pos) + n]
      ensures r.Ok? ==> |r.value| == n && pos == old(pos) + n
      ensures r.Err? ==> pos == Max(old(pos), |data|)
    {
      if n == 0 {
        r := Ok([]);
      } else if pos + n <= |data| {
        r := Ok(data[pos..pos + n]);
        pos := pos + n;
      } else {
        pos := Max(pos, |data|);
        r := Err;
      }
    }
  }

  // ---- the header-only reader ----

  /** What a streamed hit hands over: the metadata halves and the body region. */
  datatype StreamEntry = StreamEntry(meta0: seq<Byte>, meta1: seq<Byte>, offset: nat, len: nat)

  /** The bytes the region of `e` denotes in a file holding `data`, as far as they exist. */
  function Region(data: seq<Byte>, e: StreamEntry): seq<Byte> {
    data[Min(e.offset, |data|)..Min(e.offset + e.len, |data|)]
  }

  function Streamed(data: seq<Byte>, e: StreamEntry): CacheObject {
    CacheObject(e.meta0, e.meta1, Region(data, e))
  }

  /** The entry the header-only reader derives from a file holding `data` and a length measured separately. */
  function ReadHeader(data: seq<Byte>, fileLen: nat): Option<StreamEntry> {
    var sizes := ParseMetaSizes(data);
    if sizes.Err? then None
    else
      var (m0, m1) := sizes.value;
      var offset := META_SIZE_LENGTH + m0 + m1;
      if offset > fileLen || offset > |data| then None
      else Some(StreamEntry(data[8..8 + m0], data[8 + m0..offset], offset, fileLen - offset))
  }

  /** `open_stream_entry` after the open: parses header and metadata and parks the cursor on the body. */
  method OpenStreamEntry(file: FileHandle, fileLen: nat) returns (r: Option<StreamEntry>)
    requires file.pos == 0
    modifies file
    ensures r == ReadHeader(file.data, fileLen)
    ensures r.Some? ==> file.pos == r.value.offset
    // the two readers agree on every byte string
    ensures fileLen == |file.data| ==> (r.Some? <==> Decode(file.data).Ok?)
    ensures fileLen == |file.data| && r.Some? ==> Streamed(file.data, r.value) == Decode(file.data).value
  {
    ReadersAgree(file.data);
    var header := file.ReadExact(META_SIZE_LENGTH);
    if header.Err? {
      return None;
    }
    assert header.value[0..4] == file.data[0..4] && header.value[4..8] == file.data[4..8];
    var sizes := ParseMetaSizes(header.value);
    var (meta0Size, meta1Size) := sizes.value;
    var metaSize := meta0Size + meta1Size;
    var bodyOffset := META_SIZE_LENGTH + metaSize;
    if bodyOffset > fileLen {
      return None;
    }
    var meta := file.ReadExact(metaSize);
    if meta.Err? {
      return None;
    }
    file.SeekTo(bodyOffset);
    var meta1 := meta.value[meta0Size..];
    var meta0 := meta.value[..meta0Size];
    assert meta.value == file.data[8..bodyOffset];
    assert meta0 == file.data[8..8 + meta0Size] && meta1 == file.data[8 + meta0Size..bodyOffset];
    r := Some(StreamEntry(meta0, meta1, bodyOffset, fileLen - bodyOffset));
  }

  lemma ReadersAgree(data: seq<Byte>)
    ensures ReadHeader(data, |data|).Some? <==> Decode(data).Ok?
    ensures Decode(data).Ok? ==> Streamed(data, ReadHeader(data, |data|).value) == Decode(data).value
  {
    if Decode(data).Ok? {
      var e := ReadHeader(data, |data|).value;
      var (m0, m1) := ParseMetaSizes(data).value;
      assert data[8..][..m0] == data[8..8 + m0];
      assert data[8..][m0..m0 + m1] == data[8 + m0..e.offset];
      assert data[8..][m0 + m1..] == data[e.offset..];
    }
  }

  /** `into_bytes` of the entry: the announced region in full, or an error where the file is shorter. */
  function Materialised(data: seq<Byte>, fileLen: nat): Result<CacheObject> {
    var e := ReadHeader(data, fileLen);
    if e.None? || e.value.offset + e.value.len > |data| then Err else Ok(Streamed(data, e.value))
  }

  /**
   The length comes from a stat done before the open, so it may belong to another version of the file.
   Read back as a value, the object is whole exactly when it is the length of the opened file; a longer
   one is an error and a shorter one cuts the body, or the whole object when it falls into the metadata.
   */
  lemma MaterialisedIs(data: seq<Byte>, fileLen: nat)
    requires Decode(data).Ok?
    ensures var o := Decode(data).value;
            var offset := |data| - |o.body|;
            && offset <= |data|
            && Materialised(data, fileLen) ==
                 (if fileLen < offset || fileLen > |data| then Err else Ok(o.(body := o.body[..fileLen - offset])))
            && (Materialised(data, fileLen) == Ok(o) <==> fileLen == |data|)
  {
    ReadersAgree(data);
    var o := Decode(data).value;
    var offset := |data| - |o.body|;
    assert o.body == data[offset..];
    if offset <= fileLen <= |data| {
      assert data[offset..fileLen] == o.body[..fileLen - offset];
    }
  }
}

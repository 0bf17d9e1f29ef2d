/** The zTXt chunk (src/dmi/ztxt.rs), the compressed textual side channel that
    carries the DMI metadata (section 11.3.4.4 of the PNG Specification): a
    keyword, a zero separator, a compression-method byte and the compressed
    text. zlib compression (RFC 1950) and CRC-32 are parameters. */
module Ztxt {
  import opened Common
  import Chunk

  const ZTXT_TYPE: Quad := ['z' as int, 'T' as int, 'X' as int, 't' as int]

  /** The bytes of the keyword `Description`. */
  const DESCRIPTION: seq<byte> :=
    ['D' as int, 'e' as int, 's' as int, 'c' as int, 'r' as int, 'i' as int,
     'p' as int, 't' as int, 'i' as int, 'o' as int, 'n' as int]

  datatype RawZtxtData = RawZtxtData(
    keyword: seq<byte>,
    null_separator: byte,
    compression_method: byte,
    compressed_text: seq<byte>)

  datatype RawZtxtChunk = RawZtxtChunk(
    data_length: Quad,
    chunk_type: Quad,
    data: RawZtxtData,
    crc: Quad)

  /** zlib compression, `deflate::deflate_bytes_zlib`. */
  type Deflate = seq<byte> -> seq<byte>

  /** The data field as saved: keyword, separator, method, text. */
  function DataBytes(d: RawZtxtData): (b: seq<byte>)
    ensures |b| == |d.keyword| + 2 + |d.compressed_text|
  {
    d.keyword + [d.null_separator, d.compression_method] + d.compressed_text
  }

  /** The whole chunk as saved. */
  function ChunkBytes(c: RawZtxtChunk): (b: seq<byte>)
    ensures |b| == 12 + |DataBytes(c.data)|
  {
    c.data_length + c.chunk_type + DataBytes(c.data) + c.crc
  }

  /** Data that saves and loads back unchanged: no zero inside the keyword and
      a zero separator. */
  predicate WellFormedData(d: RawZtxtData)
  {
    0 !in d.keyword && d.null_separator == 0
  }

  /** A chunk whose length field, type and CRC agree with its data. */
  predicate WellFormedChunk(c: RawZtxtChunk, crc: Chunk.Crc32)
  {
    && WellFormedData(c.data)
    && Be32(c.data_length) == |DataBytes(c.data)|
    && c.chunk_type == ZTXT_TYPE
    && Be32(c.crc) == crc(ZTXT_TYPE + DataBytes(c.data))
  }

  /** `RawZtxtData::length`: the size of the saved data field. */
  function DataLength(d: RawZtxtData): (n: nat)
    ensures n == |DataBytes(d)|
  {
    |d.keyword| + 2 + |d.compressed_text|
  }

  /** `RawZtxtData::crc`: the CRC a chunk carrying this data must store. */
  function DataCrc(d: RawZtxtData, crc: Chunk.Crc32): (n: u32)
    ensures n == crc(ZTXT_TYPE + DataBytes(d))
  {
    assert ZTXT_TYPE + d.keyword + [d.null_separator, d.compression_method] + d.compressed_text
      == ZTXT_TYPE + DataBytes(d);
    crc(ZTXT_TYPE + d.keyword + [d.null_separator, d.compression_method] + d.compressed_text)
  }

  /** `impl Default for RawZtxtData`: keyword `Description`, method 0, no text. */
  function DefaultData(): (d: RawZtxtData)
    ensures WellFormedData(d)
  {
    RawZtxtData(DESCRIPTION, 0, 0, [])
  }

  /** The first zero byte at or after `from`. */
  function FirstZero(b: seq<byte>, from: nat): (r: Option<nat>)
    decreases |b| - from
    ensures r.Some? ==> from <= r.value < |b| && b[r.value] == 0
    ensures forall j :: from <= j < |b| && (r.None? || j < r.value) ==> b[j] != 0
  {
    if from >= |b| then None
    else if b[from] == 0 then Some(from)
    else FirstZero(b, from + 1)
  }

  /** What `RawZtxtData::load` reads: the keyword runs to the first zero, the
      next byte is the method and the rest is the text; it fails when no byte
      follows the keyword's terminator, or there is no terminator. Saving what
      it reads gives the input back. */
  function DecodeData(b: seq<byte>): (r: Result<RawZtxtData>)
    ensures r.Ok? <==> exists p :: 0 <= p < |b| - 1 && b[p] == 0
    ensures r.Ok? ==> WellFormedData(r.value) && DataBytes(r.value) == b
  {
    match FirstZero(b, 0)
    case None => Err(Generic)
    case Some(p) =>
      if p + 1 >= |b| then Err(Generic)
      else
        var d := RawZtxtData(b[..p], 0, b[p + 1], b[p + 2..]);
        assert b == b[..p] + [0, b[p + 1]] + b[p + 2..];
        assert forall j :: 0 <= j < p ==> d.keyword[j] == b[j];
        Ok(d)
  }

  /** Loading what was saved gives the data back. */
  lemma DecodeDataBytes(d: RawZtxtData)
    requires WellFormedData(d)
    ensures DecodeData(DataBytes(d)) == Ok(d)
  {
    var b := DataBytes(d);
    var k := |d.keyword|;
    assert b[k] == 0;
    assert forall j :: 0 <= j < k ==> b[j] == d.keyword[j];
    assert FirstZero(b, 0) == Some(k);
    assert b[..k] == d.keyword && b[k + 2..] == d.compressed_text;
  }

  /** `RawZtxtData::load`, consuming the byte iterator: `take_while` up to and
      including the first zero, `next` for the method, `collect` for the rest. */
  method LoadData(data_bytes: seq<byte>) returns (r: Result<RawZtxtData>)
    ensures r == DecodeData(data_bytes)
  {
    var pos := 0;
    var keyword: seq<byte> := [];
    while pos < |data_bytes| && data_bytes[pos] != 0
      invariant pos <= |data_bytes| && keyword == data_bytes[..pos]
      invariant forall j :: 0 <= j < pos ==> data_bytes[j] != 0
    {
      keyword := keyword + [data_bytes[pos]];
      pos := pos + 1;
    }
    if pos < |data_bytes| {
      pos := pos + 1;  // take_while also consumes the zero that stops it
    }
    var null_separator := 0;
    if pos >= |data_bytes| {
      return Err(Generic);
    }
    var compression_method := data_bytes[pos];
    pos := pos + 1;
    var compressed_text := data_bytes[pos..];
    return Ok(RawZtxtData(keyword, null_separator, compression_method, compressed_text));
  }

  /** `RawZtxtData::save`: keyword, separator, method and text in turn,
      stopping with an error at the first short write; the count is `length()`. */
  method SaveData(d: RawZtxtData, w: Writer) returns (r: Result<nat>)
    modifies w
    ensures w.out == old(w.out) + Emitted(DataBytes(d), old(w.room))
    ensures w.room == old(w.room) - Min(|DataBytes(d)|, old(w.room))
    ensures r == if |DataBytes(d)| <= old(w.room) then Ok(DataLength(d)) else Err(Generic)
  {
    assert DataBytes(d) == d.keyword + ([d.null_separator] + ([d.compression_method] + d.compressed_text));
    ghost var goal := w.out + Emitted(DataBytes(d), w.room);
    ghost var out0, room0 := w.out, w.room;
    var bytes_written := w.Write(d.keyword);
    WriteStep(out0, room0, d.keyword, [d.null_separator] + ([d.compression_method] + d.compressed_text), bytes_written);
    assert w.out + Emitted([d.null_separator] + ([d.compression_method] + d.compressed_text), w.room) == goal;
    var total_bytes_written := bytes_written;
    if bytes_written < |d.keyword| {
      return Err(Generic);
    }
    out0, room0 := w.out, w.room;
    bytes_written := w.Write([d.null_separator]);
    WriteStep(out0, room0, [d.null_separator], [d.compression_method] + d.compressed_text, bytes_written);
    assert w.out + Emitted([d.compression_method] + d.compressed_text, w.room) == goal;
    total_bytes_written := total_bytes_written + bytes_written;
    if bytes_written < 1 {
      return Err(Generic);
    }
    out0, room0 := w.out, w.room;
    bytes_written := w.Write([d.compression_method]);
    WriteStep(out0, room0, [d.compression_method], d.compressed_text, bytes_written);
    assert w.out + Emitted(d.compressed_text, w.room) == goal;
    total_bytes_written := total_bytes_written + bytes_written;
    if bytes_written < 1 {
      return Err(Generic);
    }
    out0, room0 := w.out, w.room;
    bytes_written := w.Write(d.compressed_text);
    WriteStep(out0, room0, d.compressed_text, [], bytes_written);
    assert w.out + Emitted([], w.room) == goal;
    total_bytes_written := total_bytes_written + bytes_written;
    if bytes_written < |d.compressed_text| {
      return Err(Generic);
    }
    return Ok(total_bytes_written);
  }

  /** `RawZtxtChunk::load`: at least 12 bytes, a length field equal to the data
      size as `total_bytes_length as u32 - 12` computes it (the size cut to 32
      bits, a panic when the cut size is below 12), the zTXt type, loadable
      data, and a stored CRC equal to the CRC of the type and data bytes.
      Saving what it loads gives the input back. */
  function DecodeChunk(bytes: seq<byte>, crc: Chunk.Crc32): (r: Result<RawZtxtChunk>)
    ensures r.Ok? ==> |bytes| >= 12 && Be32(bytes[..4]) + 12 == |bytes| % 0x1_0000_0000
    ensures r.Ok? ==> ChunkBytes(r.value) == bytes && r.value.chunk_type == ZTXT_TYPE
    ensures r.Ok? ==> WellFormedData(r.value.data) && Be32(r.value.crc) == crc(ZTXT_TYPE + DataBytes(r.value.data))
    ensures r.Ok? && |bytes| < 0x1_0000_0000 ==> WellFormedChunk(r.value, crc)
    ensures |bytes| >= 12 && |bytes| % 0x1_0000_0000 < 12 ==> r == Err(Panic)
    ensures |bytes| >= 12 && bytes[4..8] != ZTXT_TYPE ==> r.Err?
  {
    if |bytes| < 12 then Err(Generic)
    else
      var data_length: Quad := bytes[..4];
      var n := |bytes| % 0x1_0000_0000;
      if n < 12 then Err(Panic)
      else if Be32(data_length) != n - 12 then Err(Generic)
      else
        var chunk_type: Quad := bytes[4..8];
        if chunk_type != ZTXT_TYPE then Err(Generic)
        else
          var data_bytes := bytes[8..|bytes| - 4];
          var data :- DecodeData(data_bytes);
          var stored: Quad := bytes[|bytes| - 4..];
          if Be32(stored) != crc(chunk_type + data_bytes) then Err(Generic)
          else
            assert bytes == data_length + chunk_type + data_bytes + stored;
            Ok(RawZtxtChunk(data_length, chunk_type, data, stored))
  }

  /** A well-formed chunk saves to bytes that load back as the same chunk,
      unless its data is so long that the saved size cut to 32 bits is below
      12, where loading panics. */
  lemma DecodeChunkBytes(c: RawZtxtChunk, crc: Chunk.Crc32)
    requires WellFormedChunk(c, crc)
    ensures |DataBytes(c.data)| < 0x1_0000_0000 - 12 ==> DecodeChunk(ChunkBytes(c), crc) == Ok(c)
    ensures |DataBytes(c.data)| >= 0x1_0000_0000 - 12 ==> DecodeChunk(ChunkBytes(c), crc) == Err(Panic)
  {
    var b := ChunkBytes(c);
    assert b[..4] == c.data_length && b[4..8] == c.chunk_type;
    assert b[8..|b| - 4] == DataBytes(c.data) && b[|b| - 4..] == c.crc;
    DecodeDataBytes(c.data);
  }

  /** What follows the data when `RawZtxtChunk::save` has room: the CRC, or
      nothing when the length field claims more than the data holds. */
  function SavedCrc(c: RawZtxtChunk): seq<byte>
  {
    if Be32(c.data_length) <= |DataBytes(c.data)| then c.crc else []
  }

  /** The bytes `RawZtxtChunk::save` writes to a sink with room enough. */
  function SavedBytes(c: RawZtxtChunk): (b: seq<byte>)
    ensures Be32(c.data_length) <= |DataBytes(c.data)| ==> b == ChunkBytes(c)
    ensures Be32(c.data_length) > |DataBytes(c.data)| ==> b == ChunkBytes(c)[..8 + |DataBytes(c.data)|]
  {
    var b := c.data_length + (c.chunk_type + (DataBytes(c.data) + SavedCrc(c)));
    assert ChunkBytes(c) == c.data_length + (c.chunk_type + (DataBytes(c.data) + c.crc));
    b
  }

  /** `RawZtxtChunk::save`: length, type, data, CRC; an error on a short write
      or when fewer data bytes were written than the length field states. */
  method SaveChunk(c: RawZtxtChunk, w: Writer) returns (r: Result<nat>)
    modifies w
    ensures w.out == old(w.out) + Emitted(SavedBytes(c), old(w.room))
    ensures w.room == old(w.room) - Min(|SavedBytes(c)|, old(w.room))
    ensures r.Ok? <==> |ChunkBytes(c)| <= old(w.room) && Be32(c.data_length) <= |DataBytes(c.data)|
    ensures r.Ok? ==> r.value == |ChunkBytes(c)|
  {
    ghost var goal := w.out + Emitted(SavedBytes(c), w.room);
    ghost var db := DataBytes(c.data);
    ghost var rest := SavedCrc(c);
    ghost var out0, room0 := w.out, w.room;
    var bytes_written := w.Write(c.data_length);
    WriteStep(out0, room0, c.data_length, c.chunk_type + (db + rest), bytes_written);
    assert w.out + Emitted(c.chunk_type + (db + rest), w.room) == goal;
    var total_bytes_written := bytes_written;
    if bytes_written < 4 {
      return Err(Generic);
    }
    out0, room0 := w.out, w.room;
    bytes_written := w.Write(c.chunk_type);
    WriteStep(out0, room0, c.chunk_type, db + rest, bytes_written);
    assert w.out + Emitted(db + rest, w.room) == goal;
    total_bytes_written := total_bytes_written + bytes_written;
    if bytes_written < 4 {
      return Err(Generic);
    }
    out0, room0 := w.out, w.room;
    var data_result := SaveData(c.data, w);
    WriteStep(out0, room0, db, rest, Min(|db|, room0));
    assert w.out + Emitted(rest, w.room) == goal;
    if data_result.Err? {
      return Err(data_result.error);
    }
    bytes_written := data_result.value;
    total_bytes_written := total_bytes_written + bytes_written;
    if bytes_written < Be32(c.data_length) {
      return Err(Generic);
    }
    out0, room0 := w.out, w.room;
    bytes_written := w.Write(c.crc);
    WriteStep(out0, room0, c.crc, [], bytes_written);
    assert w.out + Emitted([], w.room) == goal;
    total_bytes_written := total_bytes_written + bytes_written;
    if bytes_written < 4 {
      return Err(Generic);
    }
    return Ok(total_bytes_written);
  }

  /** `RawZtxtChunk::set_data` (the receiver is not read): the length field is
      the size of the saved data, truncated to 32 bits as `as u32` does, the
      type is zTXt and the CRC covers type and data. The result loads back
      when its saved size fits in 32 bits. */
  function SetData(d: RawZtxtData, crc: Chunk.Crc32): (c: RawZtxtChunk)
    ensures c.data == d && c.chunk_type == ZTXT_TYPE
    ensures WellFormedData(d) && |DataBytes(d)| < 0x1_0000_0000 ==> WellFormedChunk(c, crc)
    ensures WellFormedData(d) && |DataBytes(d)| < 0x1_0000_0000 - 12 ==> DecodeChunk(ChunkBytes(c), crc) == Ok(c)
  {
    var data_bytes := DataBytes(d);
    var c := RawZtxtChunk(ToBe32(|data_bytes| % 0x1_0000_0000), ZTXT_TYPE, d,
                          ToBe32(crc(ZTXT_TYPE + data_bytes)));
    assert WellFormedData(d) && |data_bytes| < 0x1_0000_0000 - 12 ==> DecodeChunk(ChunkBytes(c), crc) == Ok(c) by {
      if WellFormedData(d) && |data_bytes| < 0x1_0000_0000 - 12 {
        DecodeChunkBytes(c, crc);
      }
    }
    c
  }

  /** `impl Default for RawZtxtChunk`: the chunk `set_data` makes of the
      default data; it saves and loads back unchanged. */
  function DefaultChunk(crc: Chunk.Crc32): (c: RawZtxtChunk)
    ensures c == SetData(DefaultData(), crc)
    ensures DecodeChunk(ChunkBytes(c), crc) == Ok(c)
  {
    var data := DefaultData();
    RawZtxtChunk(ToBe32(DataLength(data)), ZTXT_TYPE, data, ToBe32(DataCrc(data, crc)))
  }

  /** `create_ztxt_chunk`: the compressed signature under keyword `Description`
      with method 0, framed as `set_data` frames it. The chunk loads back. */
  function CreateZtxtChunk(dmi_signature: seq<byte>, encode: Deflate, crc: Chunk.Crc32): (c: RawZtxtChunk)
    ensures c.data == RawZtxtData(DESCRIPTION, 0, 0, encode(dmi_signature))
    ensures |DataBytes(c.data)| < 0x1_0000_0000 - 12 ==> DecodeChunk(ChunkBytes(c), crc) == Ok(c)
  {
    var compressed_text := encode(dmi_signature);
    var data := RawZtxtData(DefaultData().keyword, DefaultData().null_separator,
                            DefaultData().compression_method, compressed_text);
    SetData(data, crc)
  }

  /** `TryFrom<RawGenericChunk>`: the type must be zTXt and the data must load;
      length field and CRC are carried over without being checked. */
  function TryFrom(g: Chunk.RawGenericChunk): (r: Result<RawZtxtChunk>)
    ensures r.Ok? <==> g.chunk_type == ZTXT_TYPE && DecodeData(g.data).Ok?
    ensures r.Ok? ==> r.value.data_length == g.data_length && r.value.crc == g.crc
    ensures r.Ok? ==> ChunkBytes(r.value) == Chunk.Bytes(g)
  {
    if g.chunk_type != ZTXT_TYPE then Err(Generic)
    else
      var data :- DecodeData(g.data);
      Ok(RawZtxtChunk(g.data_length, g.chunk_type, data, g.crc))
  }

  /** The bytes of a well-formed zTXt chunk load through the generic chunk
      codec and convert back to the same chunk: the path `RawDmi::load` and
      `RawDmi::load_meta` take. */
  lemma {:induction false} LoadAsGeneric(c: RawZtxtChunk, crc: Chunk.Crc32)
    requires WellFormedChunk(c, crc)
    ensures Chunk.Load(ChunkBytes(c), crc).Ok?
    ensures TryFrom(Chunk.Load(ChunkBytes(c), crc).value) == Ok(c)
  {
    var g := Chunk.RawGenericChunk(c.data_length, c.chunk_type, DataBytes(c.data), c.crc);
    assert Chunk.Bytes(g) == ChunkBytes(c);
    assert Chunk.IsLetterType(ZTXT_TYPE);
    Chunk.LoadBytes(g, crc);
    DecodeDataBytes(c.data);
  }
}

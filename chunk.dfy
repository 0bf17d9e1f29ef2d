/** A PNG chunk kept as raw fields (src/dmi/chunk.rs): a 4-byte big-endian
    length, a 4-letter type, the data and a stored CRC (section 5.3 of the PNG
    Specification, ISO/IEC 15948:2003). CRC-32 (its section 5.5) is a
    parameter of the codec. */
module Chunk {
  import opened Common

  /** CRC-32 over a byte sequence, as `crc32fast` computes it. */
  type Crc32 = seq<byte> -> u32

  datatype RawGenericChunk = RawGenericChunk(
    data_length: Quad,
    chunk_type: Quad,
    data: seq<byte>,
    crc: Quad)

  predicate IsAsciiLetter(b: byte)
  {
    ('A' as int <= b <= 'Z' as int) || ('a' as int <= b <= 'z' as int)
  }

  /** Section 5.4 of the PNG Specification: a chunk type is four ASCII letters. */
  predicate IsLetterType(t: seq<byte>)
  {
    forall i :: 0 <= i < |t| ==> IsAsciiLetter(t[i])
  }

  /** The chunk as it appears in a file: length, type, data, CRC. */
  function Bytes(c: RawGenericChunk): (b: seq<byte>)
    ensures |b| == 12 + |c.data|
  {
    c.data_length + c.chunk_type + c.data + c.crc
  }

  /** A chunk whose stored CRC is the CRC of its type and data. */
  predicate CrcHolds(c: RawGenericChunk, crc: Crc32)
  {
    Be32(c.crc) == crc(c.chunk_type + c.data)
  }

  /** `RawGenericChunk::load`: the whole input is one chunk. The length field
      is copied and not compared with the data size. */
  function Load(bytes: seq<byte>, crc: Crc32): (r: Result<RawGenericChunk>)
    ensures r.Ok? <==>
      |bytes| >= 12 && IsLetterType(bytes[4..8])
      && Be32(bytes[|bytes| - 4..]) == crc(bytes[4..8] + bytes[8..|bytes| - 4])
    ensures r.Ok? ==> Bytes(r.value) == bytes && CrcHolds(r.value, crc)
    ensures r.Ok? ==> r.value.data_length == bytes[..4] && r.value.data == bytes[8..|bytes| - 4]
    ensures r.Err? ==> r.error == Generic
  {
    if |bytes| < 12 then Err(Generic)
    else
      var chunk_type: Quad := bytes[4..8];
      if !IsLetterType(chunk_type) then Err(Generic)
      else
        var data := bytes[8..|bytes| - 4];
        var stored: Quad := bytes[|bytes| - 4..];
        if Be32(stored) != crc(chunk_type + data) then Err(Generic)
        else
          assert bytes == bytes[..4] + chunk_type + data + stored;
          Ok(RawGenericChunk(bytes[..4], chunk_type, data, stored))
  }

  /** Saving a chunk with a letter type and a correct CRC and loading the
      bytes gives the chunk back. */
  lemma LoadBytes(c: RawGenericChunk, crc: Crc32)
    requires IsLetterType(c.chunk_type) && CrcHolds(c, crc)
    ensures Load(Bytes(c), crc) == Ok(c)
  {
    var b := Bytes(c);
    assert b[..4] == c.data_length && b[4..8] == c.chunk_type;
    assert b[8..|b| - 4] == c.data && b[|b| - 4..] == c.crc;
  }

  /** `RawGenericChunk::save`: length, type, data and CRC, each written in
      turn; a write that stores fewer bytes than it was given ends the save
      with an error. */
  method Save(c: RawGenericChunk, w: Writer) returns (r: Result<nat>)
    modifies w
    ensures w.out == old(w.out) + Emitted(Bytes(c), old(w.room))
    ensures w.room == old(w.room) - Min(|Bytes(c)|, old(w.room))
    ensures r == if |Bytes(c)| <= old(w.room) then Ok(12 + |c.data|) else Err(Generic)
  {
    assert Bytes(c) == c.data_length + (c.chunk_type + (c.data + c.crc));
    ghost var goal := w.out + Emitted(Bytes(c), w.room);
    ghost var out0, room0 := w.out, w.room;
    var bytes_written := w.Write(c.data_length);
    WriteStep(out0, room0, c.data_length, c.chunk_type + (c.data + c.crc), bytes_written);
    assert w.out + Emitted(c.chunk_type + (c.data + c.crc), w.room) == goal;
    var total_bytes_written := bytes_written;
    if bytes_written < 4 {
      return Err(Generic);
    }
    out0, room0 := w.out, w.room;
    bytes_written := w.Write(c.chunk_type);
    WriteStep(out0, room0, c.chunk_type, c.data + c.crc, bytes_written);
    assert w.out + Emitted(c.data + c.crc, w.room) == goal;
    total_bytes_written := total_bytes_written + bytes_written;
    if bytes_written < 4 {
      return Err(Generic);
    }
    out0, room0 := w.out, w.room;
    bytes_written := w.Write(c.data);
    WriteStep(out0, room0, c.data, c.crc, bytes_written);
    assert w.out + Emitted(c.crc, w.room) == goal;
    total_bytes_written := total_bytes_written + bytes_written;
    if bytes_written < |c.data| {
      return Err(Generic);
    }
    out0, room0 := w.out, w.room;
    bytes_written := w.Write(c.crc);
    WriteStep(out0, room0, c.crc, [], bytes_written);
    assert w.out + Emitted([], w.room) == goal;
    total_bytes_written := total_bytes_written + bytes_written;
    if bytes_written < 4 {
      return Err(Generic);
    }
    return Ok(total_bytes_written);
  }
}

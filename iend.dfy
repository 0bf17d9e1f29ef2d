/** The IEND chunk (src/dmi/iend.rs): the empty chunk that ends a PNG
    datastream (section 11.2.5 of the PNG Specification). It is held as its
    three fixed fields; its only valid value is the default one. */
module Iend {
  import opened Common
  import Chunk

  const IEND_TYPE: Quad := ['I' as int, 'E' as int, 'N' as int, 'D' as int]

  /** The CRC-32 of the four bytes `IEND`, as the source spells it out. */
  const IEND_CRC: Quad := [174, 66, 96, 130]

  datatype RawIendChunk = RawIendChunk(data_length: Quad, chunk_type: Quad, crc: Quad)

  /** `impl Default for RawIendChunk`. */
  function Default(): RawIendChunk
  {
    RawIendChunk([0, 0, 0, 0], IEND_TYPE, IEND_CRC)
  }

  function Bytes(c: RawIendChunk): seq<byte>
  {
    c.data_length + c.chunk_type + c.crc
  }

  /** `RawIendChunk::new`, the default chunk; saving it and loading the bytes
      gives it back. */
  function New(): (c: RawIendChunk)
    ensures Load(Bytes(c)) == Ok(c)
    ensures Be32(c.data_length) == 0 && c.chunk_type == IEND_TYPE && c.crc == IEND_CRC
  {
    Default()
  }

  /** `RawIendChunk::length`: the size of the saved chunk, whatever its fields. */
  function Length(c: RawIendChunk): (n: nat)
    ensures n == |Bytes(c)| == 12
  {
    |c.data_length| + |c.chunk_type| + |c.crc|
  }

  /** `RawIendChunk::load`: only the twelve bytes of the default chunk load,
      and they load as the default chunk. */
  function Load(bytes: seq<byte>): (r: Result<RawIendChunk>)
    ensures r.Ok? <==> bytes == Bytes(Default())
    ensures r.Ok? ==> r.value == Default()
  {
    var default_iend_chunk := Default();
    if |bytes| != Length(default_iend_chunk) then Err(Generic)
    else if bytes[0..4] != default_iend_chunk.data_length then Err(Generic)
    else if bytes[4..8] != default_iend_chunk.chunk_type then Err(Generic)
    else if bytes[|bytes| - 4..] != default_iend_chunk.crc then Err(Generic)
    else
      assert bytes == bytes[0..4] + bytes[4..8] + bytes[8..];
      Ok(default_iend_chunk)
  }

  /** `RawIendChunk::save`: length, type and CRC in that order, stopping with
      an error at the first short write. */
  method Save(c: RawIendChunk, w: Writer) returns (r: Result<nat>)
    modifies w
    ensures w.out == old(w.out) + Emitted(Bytes(c), old(w.room))
    ensures w.room == old(w.room) - Min(12, old(w.room))
    ensures r == if 12 <= old(w.room) then Ok(12) else Err(Generic)
  {
    assert Bytes(c) == c.data_length + (c.chunk_type + c.crc);
    ghost var goal := w.out + Emitted(Bytes(c), w.room);
    ghost var out0, room0 := w.out, w.room;
    var bytes_written := w.Write(c.data_length);
    WriteStep(out0, room0, c.data_length, c.chunk_type + c.crc, bytes_written);
    assert w.out + Emitted(c.chunk_type + c.crc, w.room) == goal;
    var total_bytes_written := bytes_written;
    if bytes_written < 4 {
      return Err(Generic);
    }
    out0, room0 := w.out, w.room;
    bytes_written := w.Write(c.chunk_type);
    WriteStep(out0, room0, c.chunk_type, c.crc, bytes_written);
    assert w.out + Emitted(c.crc, w.room) == goal;
    total_bytes_written := total_bytes_written + bytes_written;
    if bytes_written < 4 {
      return Err(Generic);
    }
    out0, room0 := w.out, w.room;
    bytes_written := w.Write(c.crc);
    WriteStep(out0, room0, c.crc, [], bytes_written);
    assert w.out + Emitted([], w.room) == goal;
    total_bytes_written := total_bytes_written + bytes_written;
    if bytes_written < 4 {
      return Err(Generic);
    }
    return Ok(total_bytes_written);
  }

  /** `TryFrom<RawGenericChunk>`: the data must be empty, the type IEND and the
      CRC the fixed one; the length field is not looked at. */
  function TryFrom(g: Chunk.RawGenericChunk): (r: Result<RawIendChunk>)
    ensures r.Ok? <==> g.data == [] && g.chunk_type == IEND_TYPE && g.crc == IEND_CRC
    ensures r.Ok? ==> r.value == Default()
  {
    if |g.data| > 0 then Err(Generic)
    else if g.chunk_type != Default().chunk_type then Err(Generic)
    else if g.crc != Default().crc then Err(Generic)
    else Ok(Default())
  }

  /** An IEND chunk read through the generic chunk codec converts when its
      stored bytes are those of the default chunk, whatever its length field. */
  lemma TryFromIgnoresLength(g: Chunk.RawGenericChunk)
    requires g.data == [] && g.chunk_type == IEND_TYPE && g.crc == IEND_CRC
    ensures TryFrom(g) == Ok(New())
    ensures Be32(g.data_length) != 0 ==> Bytes(TryFrom(g).value) != Chunk.Bytes(g)
  {
    if Be32(g.data_length) != 0 {
      assert Chunk.Bytes(g)[..4] == g.data_length;
      assert Bytes(Default())[..4] == [0, 0, 0, 0];
    }
  }
}

/** The PNG container of a DMI file (src/lib.rs): the 8-byte signature
    (section 5.2 of the PNG Specification) followed by chunks (its section 5.3),
    of which IHDR, zTXt, PLTE, IDAT and IEND are told apart (its sections
    11.2.2-11.2.5 and 11.3.4.4) and every other kind is kept as it is. */
module RawDmiCodec {
  import opened Common
  import Chunk
  import Iend
  import Ztxt

  /** An 8-byte field (`[u8; 8]`). */
  type Signature = s: seq<byte> | |s| == 8 witness [0, 0, 0, 0, 0, 0, 0, 0]

  /** The PNG file signature. */
  const PNG_HEADER: Signature := [137, 80, 78, 71, 13, 10, 26, 10]

  /** The length field and type of an IHDR chunk with its 13 data bytes. */
  const IHDR_HEADER: Signature := [0, 0, 0, 13, 73, 72, 68, 82]

  const IHDR_TYPE: Quad := ['I' as int, 'H' as int, 'D' as int, 'R' as int]
  const PLTE_TYPE: Quad := ['P' as int, 'L' as int, 'T' as int, 'E' as int]
  const IDAT_TYPE: Quad := ['I' as int, 'D' as int, 'A' as int, 'T' as int]

  type RawGenericChunk = Chunk.RawGenericChunk

  datatype RawDmi = RawDmi(
    header: Signature,
    chunk_ihdr: RawGenericChunk,
    chunk_ztxt: Option<Ztxt.RawZtxtChunk>,
    chunk_plte: Option<RawGenericChunk>,
    other_chunks: Option<seq<RawGenericChunk>>,
    chunks_idat: seq<RawGenericChunk>,
    chunk_iend: Iend.RawIendChunk)

  datatype RawDmiMetadata = RawDmiMetadata(
    chunk_ihdr: RawGenericChunk,
    chunk_ztxt: Ztxt.RawZtxtChunk)

  /** `RawDmi::new`: every field at its default; the header is eight zero
      bytes, so the default file is not a PNG file and never loads. */
  function New(): (d: RawDmi)
    ensures d.header != PNG_HEADER && d.chunk_ztxt.None? && d.chunk_plte.None?
    ensures d.other_chunks.None? && d.chunks_idat == [] && d.chunk_iend == Iend.Default()
    ensures forall include_ztxt: bool, crc: Chunk.Crc32 :: Decode(Serialize(d, include_ztxt), crc) == Err(Generic)
  {
    var empty_chunk := Chunk.RawGenericChunk([0, 0, 0, 0], [0, 0, 0, 0], [], [0, 0, 0, 0]);
    var d := RawDmi([0, 0, 0, 0, 0, 0, 0, 0], empty_chunk, None, None, None, [], Iend.Default());
    assert forall include_ztxt: bool :: Serialize(d, include_ztxt)[..8] == d.header;
    d
  }

  /** A chunk type `RawDmi::load` files under a field of its own. */
  predicate IsKnownType(t: Quad)
  {
    t == IHDR_TYPE || t == Ztxt.ZTXT_TYPE || t == PLTE_TYPE || t == IDAT_TYPE || t == Iend.IEND_TYPE
  }

  // ---- load ----

  /** The chunks the walk of `RawDmi::load` has collected so far. */
  datatype Found = Found(
    ihdr: Option<RawGenericChunk>,
    ztxt: Option<Ztxt.RawZtxtChunk>,
    plte: Option<RawGenericChunk>,
    idat: seq<RawGenericChunk>,
    other: seq<RawGenericChunk>)

  const NOTHING_FOUND: Found := Found(None, None, None, [], [])

  /** Every collected chunk sits where its type belongs. */
  predicate Sorted(f: Found)
  {
    && (f.ihdr.Some? ==> f.ihdr.value.chunk_type == IHDR_TYPE)
    && (f.plte.Some? ==> f.plte.value.chunk_type == PLTE_TYPE)
    && (forall i :: 0 <= i < |f.idat| ==> f.idat[i].chunk_type == IDAT_TYPE)
    && (forall i :: 0 <= i < |f.other| ==> !IsKnownType(f.other[i].chunk_type))
  }

  /** Filing a chunk that is neither zTXt nor IEND: the last IHDR and the last
      PLTE win, IDAT and unknown chunks are appended in file order. */
  function Collect(f: Found, raw_chunk: RawGenericChunk): (g: Found)
    ensures Sorted(f) ==> Sorted(g)
  {
    if raw_chunk.chunk_type == IHDR_TYPE then f.(ihdr := Some(raw_chunk))
    else if raw_chunk.chunk_type == PLTE_TYPE then f.(plte := Some(raw_chunk))
    else if raw_chunk.chunk_type == IDAT_TYPE then f.(idat := f.idat + [raw_chunk])
    else if raw_chunk.chunk_type == Ztxt.ZTXT_TYPE || raw_chunk.chunk_type == Iend.IEND_TYPE then f
    else f.(other := f.other + [raw_chunk])
  }

  /** The chunk walk of `RawDmi::load` over the bytes not yet consumed: fewer
      than 12 bytes left is an error, a length field running past the end is a
      panic (the slice at src/lib.rs:106), each chunk must load, a zTXt chunk
      must convert, and the first IEND chunk ends the walk. */
  function Walk(rest: seq<byte>, f: Found, crc: Chunk.Crc32): (r: Result<(Found, Iend.RawIendChunk)>)
    decreases |rest|
    ensures Sorted(f) && r.Ok? ==> Sorted(r.value.0) && r.value.1 == Iend.Default()
  {
    if |rest| < 12 then Err(Generic)
    else
      var chunk_data_length: nat := Be32(rest[..4]);
      if 12 + chunk_data_length > |rest| then Err(Panic)
      else
        var raw_chunk :- Chunk.Load(rest[..12 + chunk_data_length], crc);
        var tail := rest[12 + chunk_data_length..];
        if raw_chunk.chunk_type == Iend.IEND_TYPE then
          var chunk_iend :- Iend.TryFrom(raw_chunk);
          Ok((f, chunk_iend))
        else if raw_chunk.chunk_type == Ztxt.ZTXT_TYPE then
          var chunk_ztxt :- Ztxt.TryFrom(raw_chunk);
          Walk(tail, f.(ztxt := Some(chunk_ztxt)), crc)
        else
          Walk(tail, Collect(f, raw_chunk), crc)
  }

  /** One step of the walk over a chunk that is neither IEND nor zTXt. */
  lemma WalkCollect(rest: seq<byte>, f: Found, crc: Chunk.Crc32, raw_chunk: RawGenericChunk)
    requires |rest| >= 12 && 12 + Be32(rest[..4]) <= |rest|
    requires Chunk.Load(rest[..12 + Be32(rest[..4])], crc) == Ok(raw_chunk)
    requires raw_chunk.chunk_type != Iend.IEND_TYPE && raw_chunk.chunk_type != Ztxt.ZTXT_TYPE
    ensures Walk(rest, f, crc) == Walk(rest[12 + Be32(rest[..4])..], Collect(f, raw_chunk), crc)
  {
  }

  /** One step of the walk over a zTXt chunk that converts. */
  lemma WalkZtxt(rest: seq<byte>, f: Found, crc: Chunk.Crc32, raw_chunk: RawGenericChunk, chunk_ztxt: Ztxt.RawZtxtChunk)
    requires |rest| >= 12 && 12 + Be32(rest[..4]) <= |rest|
    requires Chunk.Load(rest[..12 + Be32(rest[..4])], crc) == Ok(raw_chunk)
    requires raw_chunk.chunk_type == Ztxt.ZTXT_TYPE && Ztxt.TryFrom(raw_chunk) == Ok(chunk_ztxt)
    ensures Walk(rest, f, crc) == Walk(rest[12 + Be32(rest[..4])..], f.(ztxt := Some(chunk_ztxt)), crc)
  {
  }

  /** The file `RawDmi::load` builds from a finished walk. */
  function Assemble(f: Found, chunk_iend: Iend.RawIendChunk): Result<RawDmi>
  {
    if f.ihdr.None? then Err(Generic)
    else if |f.idat| == 0 then Err(Generic)
    else
      var other_chunks := if |f.other| == 0 then None else Some(f.other);
      Ok(RawDmi(PNG_HEADER, f.ihdr.value, f.ztxt, f.plte, other_chunks, f.idat, chunk_iend))
  }

  /** What `RawDmi::load` reads from the bytes of a file: at least 72 bytes,
      the PNG signature, a chunk walk that reaches IEND, an IHDR chunk and at
      least one IDAT chunk. Every chunk it returns is filed by its type. */
  function Decode(dmi_bytes: seq<byte>, crc: Chunk.Crc32): (r: Result<RawDmi>)
    ensures |dmi_bytes| < 72 || dmi_bytes[..8] != PNG_HEADER ==> r == Err(Generic)
    ensures r.Ok? ==> r.value.header == PNG_HEADER && r.value.chunk_iend == Iend.Default()
    ensures r.Ok? ==> r.value.chunk_ihdr.chunk_type == IHDR_TYPE && |r.value.chunks_idat| > 0
    ensures r.Ok? ==> forall i :: 0 <= i < |r.value.chunks_idat| ==> r.value.chunks_idat[i].chunk_type == IDAT_TYPE
    ensures r.Ok? && r.value.chunk_plte.Some? ==> r.value.chunk_plte.value.chunk_type == PLTE_TYPE
    ensures r.Ok? && r.value.other_chunks.Some? ==>
      |r.value.other_chunks.value| > 0
      && forall i :: 0 <= i < |r.value.other_chunks.value| ==> !IsKnownType(r.value.other_chunks.value[i].chunk_type)
  {
    if |dmi_bytes| < 72 then Err(Generic)
    else if dmi_bytes[..8] != PNG_HEADER then Err(Generic)
    else
      var walked :- Walk(dmi_bytes[8..], NOTHING_FOUND, crc);
      Assemble(walked.0, walked.1)
  }

  /** `RawDmi::load`: the walk with a mutable index through the buffer. */
  method Load(dmi_bytes: seq<byte>, crc: Chunk.Crc32) returns (r: Result<RawDmi>)
    ensures r == Decode(dmi_bytes, crc)
  {
    if |dmi_bytes| < 72 {
      return Err(Generic);
    }
    if dmi_bytes[0..8] != PNG_HEADER {
      return Err(Generic);
    }
    var header := PNG_HEADER;
    var chunk_ihdr: Option<RawGenericChunk> := None;
    var chunk_ztxt: Option<Ztxt.RawZtxtChunk> := None;
    var chunk_plte: Option<RawGenericChunk> := None;
    var chunks_idat: seq<RawGenericChunk> := [];
    var chunk_iend: Iend.RawIendChunk;
    var other_chunks: seq<RawGenericChunk> := [];
    ghost var start := dmi_bytes[8..];

    var index := 8;
    while true
      invariant 8 <= index <= |dmi_bytes|
      invariant Walk(dmi_bytes[index..], Found(chunk_ihdr, chunk_ztxt, chunk_plte, chunks_idat, other_chunks), crc)
        == Walk(start, NOTHING_FOUND, crc)
      decreases |dmi_bytes| - index
    {
      ghost var rest := dmi_bytes[index..];
      ghost var found := Found(chunk_ihdr, chunk_ztxt, chunk_plte, chunks_idat, other_chunks);
      if index + 12 > |dmi_bytes| {
        return Err(Generic);
      }
      assert rest[..4] == dmi_bytes[index..index + 4];
      var chunk_data_length: nat := Be32(dmi_bytes[index..index + 4]);
      if index + 12 + chunk_data_length > |dmi_bytes| {
        return Err(Panic);
      }
      var chunk_bytes := dmi_bytes[index..index + 12 + chunk_data_length];
      assert rest[..12 + chunk_data_length] == chunk_bytes;
      assert rest[12 + chunk_data_length..] == dmi_bytes[index + 12 + chunk_data_length..];
      var raw_chunk :- Chunk.Load(chunk_bytes, crc);
      index := index + 12 + chunk_data_length;
      assert dmi_bytes[index..] == rest[12 + Be32(rest[..4])..];
      if raw_chunk.chunk_type != Iend.IEND_TYPE && raw_chunk.chunk_type != Ztxt.ZTXT_TYPE {
        WalkCollect(rest, found, crc, raw_chunk);
      }

      if raw_chunk.chunk_type == IHDR_TYPE {
        chunk_ihdr := Some(raw_chunk);
        assert Found(chunk_ihdr, chunk_ztxt, chunk_plte, chunks_idat, other_chunks) == Collect(found, raw_chunk);
      } else if raw_chunk.chunk_type == Ztxt.ZTXT_TYPE {
        var converted :- Ztxt.TryFrom(raw_chunk);
        WalkZtxt(rest, found, crc, raw_chunk, converted);
        chunk_ztxt := Some(converted);
      } else if raw_chunk.chunk_type == PLTE_TYPE {
        chunk_plte := Some(raw_chunk);
        assert Found(chunk_ihdr, chunk_ztxt, chunk_plte, chunks_idat, other_chunks) == Collect(found, raw_chunk);
      } else if raw_chunk.chunk_type == IDAT_TYPE {
        chunks_idat := chunks_idat + [raw_chunk];
        assert Found(chunk_ihdr, chunk_ztxt, chunk_plte, chunks_idat, other_chunks) == Collect(found, raw_chunk);
      } else if raw_chunk.chunk_type == Iend.IEND_TYPE {
        chunk_iend :- Iend.TryFrom(raw_chunk);
        assert Walk(rest, found, crc) == Ok((found, chunk_iend));
        break;
      } else {
        other_chunks := other_chunks + [raw_chunk];
        assert Found(chunk_ihdr, chunk_ztxt, chunk_plte, chunks_idat, other_chunks) == Collect(found, raw_chunk);
      }
    }
    if chunk_ihdr.None? {
      return Err(Generic);
    }
    if |chunks_idat| == 0 {
      return Err(Generic);
    }
    var other := if |other_chunks| == 0 then None else Some(other_chunks);
    return Ok(RawDmi(header, chunk_ihdr.value, chunk_ztxt, chunk_plte, other, chunks_idat, chunk_iend));
  }

  // ---- load_meta ----

  /** The size of the first read of `RawDmi::load_meta`. */
  const ASSUMED_ZTXT_MAX: nat := 500

  /** `buf` after writing `data` at offset `at` through a `Cursor<Vec<u8>>`:
      the bytes before `at` stay, `data` follows, and the buffer grows when
      `data` runs past its end. */
  function WriteAt(buf: seq<byte>, at: nat, data: seq<byte>): (r: seq<byte>)
    requires at <= |buf|
    ensures |r| >= at + |data| && |r| >= |buf|
    ensures r[..at] == buf[..at] && r[at..at + |data|] == data
  {
    if at + |data| < |buf| then buf[..at] + data + buf[at + |data|..] else buf[..at] + data
  }

  /** `ensure_buffered_bytes` as written. The reader is `source`, of which the
      first `amount_read` bytes have been read into `buffered`; the cursor is
      at `position`. When the `required` bytes from `position` run past
      `amount_read`, it reads `required` fresh bytes from the reader (all of
      them, or an I/O error), writes them after the bytes already read and
      returns the new buffer and count. It reads `required` bytes, not the
      `position + required - amount_read` bytes that are missing, so it can
      fail near the end of a file whose bytes up to `position + required` are
      all there. */
  function EnsureBufferedAsWritten(buffered: seq<byte>, position: nat, source: seq<byte>, amount_read: nat, required: nat)
    : (r: Result<(seq<byte>, nat)>)
    requires position <= amount_read <= |buffered| && amount_read <= |source|
    ensures r.Ok? <==> position + required <= amount_read || amount_read + required <= |source|
    ensures r.Err? ==> r.error == Io
    ensures r.Ok? ==> position + required <= r.value.1 <= |r.value.0| && amount_read <= r.value.1 <= |source|
    ensures r.Ok? && buffered[..amount_read] == source[..amount_read] ==> r.value.0[..r.value.1] == source[..r.value.1]
  {
    if position + required > amount_read then
      if amount_read + required > |source| then Err(Io)
      else
        var new_bytes := source[amount_read..amount_read + required];
        var b := WriteAt(buffered, amount_read, new_bytes);
        assert b[..amount_read + required] == b[..amount_read] + b[amount_read..amount_read + required];
        assert source[..amount_read + required] == source[..amount_read] + new_bytes;
        Ok((b, amount_read + required))
    else Ok((buffered, amount_read))
  }

  /** `ensure_buffered_bytes` reading only the bytes that are missing: it
      succeeds exactly when the reader holds the `required` bytes from
      `position`, and the buffer keeps holding the bytes read so far. */
  function EnsureBuffered(buffered: seq<byte>, position: nat, source: seq<byte>, amount_read: nat, required: nat)
    : (r: Result<(seq<byte>, nat)>)
    requires position <= amount_read <= |buffered| && amount_read <= |source|
    ensures r.Ok? <==> position + required <= |source|
    ensures r.Err? ==> r.error == Io
    ensures r.Ok? ==> position + required <= r.value.1 <= |r.value.0| && amount_read <= r.value.1 <= |source|
    ensures r.Ok? && buffered[..amount_read] == source[..amount_read] ==> r.value.0[..r.value.1] == source[..r.value.1]
  {
    if position + required > amount_read then
      var missing := position + required - amount_read;
      if amount_read + missing > |source| then Err(Io)
      else
        var new_bytes := source[amount_read..amount_read + missing];
        var b := WriteAt(buffered, amount_read, new_bytes);
        assert b[..amount_read + missing] == b[..amount_read] + b[amount_read..amount_read + missing];
        assert source[..amount_read + missing] == source[..amount_read] + new_bytes;
        Ok((b, amount_read + missing))
    else Ok((buffered, amount_read))
  }

  /** Where the bytes a chunk needs are in the file but fewer than `required`
      bytes are left after those already read, the source's buffering fails
      with an I/O error and the corrected one succeeds. For instance: 500
      bytes read first from a 600-byte file whose zTXt chunk header ends at
      offset 41 and declares 500 data bytes. */
  lemma EnsureBufferedOverreads(buffered: seq<byte>, position: nat, source: seq<byte>, amount_read: nat, required: nat)
    requires position <= amount_read <= |buffered| && amount_read <= |source|
    requires amount_read < position + required <= |source| < amount_read + required
    ensures EnsureBufferedAsWritten(buffered, position, source, amount_read, required) == Err(Io)
    ensures EnsureBuffered(buffered, position, source, amount_read, required).Ok?
  {
  }

  /** The example above, with every byte zero. */
  lemma {:induction false} EnsureBufferedOverreadsExample()
    ensures var source: seq<byte> := seq(600, i => 0);
      && EnsureBufferedAsWritten(source[..500], 41, source, 500, 504) == Err(Io)
      && EnsureBuffered(source[..500], 41, source, 500, 504) == Ok((source[..545], 545))
  {
    var source: seq<byte> := seq(600, i => 0);
    assert source[..500] + source[500..545] == source[..545];
  }

  /** `ensure_buffered_bytes` as written or corrected. */
  function Buffer(v: Variant, buffered: seq<byte>, position: nat, source: seq<byte>, amount_read: nat, required: nat)
    : (r: Result<(seq<byte>, nat)>)
    requires position <= amount_read <= |buffered| && amount_read <= |source|
    ensures v == Corrected ==> (r.Ok? <==> position + required <= |source|)
    ensures v == AsWritten ==> (r.Ok? <==> position + required <= amount_read || amount_read + required <= |source|)
    ensures r.Err? ==> r.error == Io
    ensures r.Ok? ==> position + required <= r.value.1 <= |r.value.0| && amount_read <= r.value.1 <= |source|
    ensures r.Ok? && buffered[..amount_read] == source[..amount_read] ==> r.value.0[..r.value.1] == source[..r.value.1]
  {
    if v == AsWritten then EnsureBufferedAsWritten(buffered, position, source, amount_read, required)
    else EnsureBuffered(buffered, position, source, amount_read, required)
  }

  /** What one turn of the chunk loop of `RawDmi::load_meta` does: it ends
      the loop (with the zTXt chunk or an error), or skips a chunk and moves
      the cursor on. */
  datatype ScanStep = Done(result: Result<seq<byte>>) | Skipped(buffered: seq<byte>, position: nat, amount_read: nat)

  /** One turn of the chunk loop, from the chunk header at `at`: an IDAT or
      IEND chunk ends it without a zTXt chunk (an error), any other chunk but
      zTXt is skipped after buffering it and the next header, and a zTXt
      chunk is buffered and its bytes returned. */
  function ScanOne(v: Variant, buffered: seq<byte>, at: nat, amount_read: nat, source: seq<byte>): (r: ScanStep)
    requires at + 8 <= amount_read <= |buffered| && amount_read <= |source|
    ensures r.Skipped? ==> at < r.position && r.position + 8 <= r.amount_read <= |r.buffered| && r.amount_read <= |source|
    ensures r.Done? && r.result.Ok? ==> |r.result.value| >= 12 && r.result.value[4..8] == Ztxt.ZTXT_TYPE
    ensures buffered[at + 4..at + 8] == IDAT_TYPE || buffered[at + 4..at + 8] == Iend.IEND_TYPE ==> r == Done(Err(Generic))
  {
    var chunk_header_full := buffered[at..at + 8];
    var chunk_len: nat := Be32(chunk_header_full[..4]);
    var chunk_header_type := chunk_header_full[4..8];
    if chunk_header_type == IDAT_TYPE || chunk_header_type == Iend.IEND_TYPE then Done(Err(Generic))
    else if chunk_header_type != Ztxt.ZTXT_TYPE then
      match Buffer(v, buffered, at + 8, source, amount_read, chunk_len + 12)
      case Err(e) => Done(Err(e))
      case Ok(refilled) => Skipped(refilled.0, at + 8 + chunk_len + 4, refilled.1)
    else
      match Buffer(v, buffered, at + 8, source, amount_read, chunk_len + 4)
      case Err(e) => Done(Err(e))
      case Ok(refilled) => Done(Ok(chunk_header_full + refilled.0[at + 8..at + 8 + chunk_len + 4]))
  }

  /** The chunk loop of `RawDmi::load_meta`, from the chunk header at `at`
      until a turn ends it. */
  function ScanMeta(v: Variant, buffered: seq<byte>, at: nat, amount_read: nat, source: seq<byte>)
    : (r: Result<seq<byte>>)
    requires at + 8 <= amount_read <= |buffered| && amount_read <= |source|
    ensures r.Ok? ==> |r.value| >= 12 && r.value[4..8] == Ztxt.ZTXT_TYPE
    ensures buffered[at + 4..at + 8] == IDAT_TYPE || buffered[at + 4..at + 8] == Iend.IEND_TYPE ==> r == Err(Generic)
    decreases |source| - at
  {
    match ScanOne(v, buffered, at, amount_read, source)
    case Done(result) => result
    case Skipped(next_buffered, next, next_amount_read) => ScanMeta(v, next_buffered, next, next_amount_read, source)
  }

  /** The chunk loop read straight from the file, as if every byte it needs
      were already buffered. From the chunk header at `at`: an IDAT or IEND
      chunk ends it with an error, a chunk the file cuts short ends it with
      an I/O error, any other chunk but zTXt is passed over, and a zTXt chunk
      is returned whole. */
  function ScanFile(source: seq<byte>, at: nat): (r: Result<seq<byte>>)
    requires at + 8 <= |source|
    ensures r.Ok? ==> |r.value| >= 12 && r.value[4..8] == Ztxt.ZTXT_TYPE && Be32(r.value[..4]) == |r.value| - 12
    ensures r.Err? ==> r.error == Generic || r.error == Io
    decreases |source| - at
  {
    var chunk_len: nat := Be32(source[at..at + 4]);
    var chunk_type := source[at + 4..at + 8];
    if chunk_type == IDAT_TYPE || chunk_type == Iend.IEND_TYPE then Err(Generic)
    else if chunk_type != Ztxt.ZTXT_TYPE then
      if at + 8 + chunk_len + 12 > |source| then Err(Io) else ScanFile(source, at + 8 + chunk_len + 4)
    else if at + 8 + chunk_len + 4 > |source| then Err(Io)
    else
      var chunk := source[at..at + 12 + chunk_len];
      SliceOfSlice(source, at, at + 12 + chunk_len, 0, 4);
      SliceOfSlice(source, at, at + 12 + chunk_len, 4, 8);
      Ok(source[at..at + 12 + chunk_len])
  }

  /** The buffering gets hold of a chunk of `size` bytes at `at` in a file
      of `total` bytes of which `amount_read` were read first: the corrected
      one always does, the one as written only when the chunk ends within
      the bytes read or `size - 8` more bytes follow them. */
  predicate Reaches(v: Variant, at: nat, amount_read: nat, total: nat, size: nat)
  {
    v == Corrected || at + size <= amount_read || amount_read + size - 8 <= total
  }

  /** The chunk header at `at` of buffered bytes that are those of the
      file, read from the file. */
  lemma HeaderFromFile(buffered: seq<byte>, at: nat, amount_read: nat, source: seq<byte>)
    requires at + 8 <= amount_read <= |buffered| && amount_read <= |source|
    requires buffered[..amount_read] == source[..amount_read]
    ensures buffered[at..at + 8] == source[at..at + 8]
    ensures buffered[at..at + 8][..4] == source[at..at + 4]
    ensures buffered[at..at + 8][4..8] == source[at + 4..at + 8]
  {
    SliceOfSlice(buffered, 0, amount_read, at, at + 8);
    SliceOfSlice(source, 0, amount_read, at, at + 8);
    SliceOfSlice(source, at, at + 8, 0, 4);
    SliceOfSlice(source, at, at + 8, 4, 8);
  }

  /** A zTXt chunk header read by one turn of the loop: the chunk is
      returned whole when the buffering gets hold of it. */
  lemma ScanOneZtxt(v: Variant, buffered: seq<byte>, at: nat, amount_read: nat, source: seq<byte>)
    requires at + 8 <= amount_read <= |buffered| && amount_read <= |source|
    requires buffered[..amount_read] == source[..amount_read]
    requires source[at + 4..at + 8] == Ztxt.ZTXT_TYPE
    ensures ScanOne(v, buffered, at, amount_read, source)
      == Done(if Reaches(v, at, amount_read, |source|, Be32(source[at..at + 4]) + 12) then ScanFile(source, at) else Err(Io))
  {
    HeaderFromFile(buffered, at, amount_read, source);
    var chunk_len: nat := Be32(source[at..at + 4]);
    assert Ztxt.ZTXT_TYPE[0] != IDAT_TYPE[0] && Ztxt.ZTXT_TYPE[0] != Iend.IEND_TYPE[0];
    var refilled := Buffer(v, buffered, at + 8, source, amount_read, chunk_len + 4);
    if refilled.Ok? {
      var (b, n) := refilled.value;
      var chunk := source[at..at + 12 + chunk_len];
      SliceOfSlice(b, 0, n, at + 8, at + 12 + chunk_len);
      SliceOfSlice(source, 0, n, at + 8, at + 12 + chunk_len);
      assert source[at..at + 8] + source[at + 8..at + 12 + chunk_len] == chunk;
      assert ScanOne(v, buffered, at, amount_read, source) == Done(Ok(chunk));
    }
  }

  /** A chunk header other than IDAT, IEND and zTXt read by one turn of the
      loop: the chunk is passed over, as the file-level loop passes over it,
      with the buffer still holding the file's bytes. */
  lemma ScanOneOther(v: Variant, buffered: seq<byte>, at: nat, amount_read: nat, source: seq<byte>)
    requires at + 8 <= amount_read <= |buffered| && amount_read <= |source|
    requires buffered[..amount_read] == source[..amount_read]
    requires source[at + 4..at + 8] != IDAT_TYPE && source[at + 4..at + 8] != Iend.IEND_TYPE
    requires source[at + 4..at + 8] != Ztxt.ZTXT_TYPE
    ensures var r := ScanOne(v, buffered, at, amount_read, source);
      && (r.Done? ==> r.result == Err(Io) && (v == Corrected ==> ScanFile(source, at) == Err(Io)))
      && (r.Skipped? ==> r.buffered[..r.amount_read] == source[..r.amount_read]
                         && ScanFile(source, at) == ScanFile(source, r.position))
  {
    var chunk_len: nat := Be32(source[at..at + 4]);
    var next := at + 8 + chunk_len + 4;
    SkipTurn(v, buffered, at, amount_read, source, chunk_len);
    SkipAgrees(v, buffered, at, amount_read, source, chunk_len);
    if next + 8 <= |source| {
      SkipFile(source, at, chunk_len, next);
    } else {
      SkipFileShort(source, at, chunk_len);
    }
  }

  /** Where the buffering fails, the corrected file-level loop fails too;
      where it gets hold of the chunk and the next header, so does the file. */
  lemma SkipAgrees(v: Variant, buffered: seq<byte>, at: nat, amount_read: nat, source: seq<byte>, chunk_len: nat)
    requires at + 8 <= amount_read <= |buffered| && amount_read <= |source|
    requires buffered[..amount_read] == source[..amount_read]
    ensures var refilled := Buffer(v, buffered, at + 8, source, amount_read, chunk_len + 12);
      && (refilled.Err? ==> refilled.error == Io && (v == Corrected ==> at + 8 + chunk_len + 12 > |source|))
      && (refilled.Ok? ==> refilled.value.0[..refilled.value.1] == source[..refilled.value.1]
                           && at + 8 + chunk_len + 12 <= |source|)
  {
  }

  /** A turn of the loop over a chunk header read from the file, with
      length `chunk_len` and a type other than IDAT, IEND and zTXt, buffers
      the chunk and the next header and moves past them. */
  lemma SkipTurn(v: Variant, buffered: seq<byte>, at: nat, amount_read: nat, source: seq<byte>, chunk_len: nat)
    requires at + 8 <= amount_read <= |buffered| && amount_read <= |source|
    requires buffered[..amount_read] == source[..amount_read] && Be32(source[at..at + 4]) == chunk_len
    requires source[at + 4..at + 8] != IDAT_TYPE && source[at + 4..at + 8] != Iend.IEND_TYPE
    requires source[at + 4..at + 8] != Ztxt.ZTXT_TYPE
    ensures var refilled := Buffer(v, buffered, at + 8, source, amount_read, chunk_len + 12);
      ScanOne(v, buffered, at, amount_read, source)
        == if refilled.Err? then Done(Err(refilled.error)) else Skipped(refilled.value.0, at + 8 + chunk_len + 4, refilled.value.1)
  {
    HeaderFromFile(buffered, at, amount_read, source);
  }

  /** The file-level loop passes over a chunk with length `chunk_len` and a
      type other than IDAT, IEND and zTXt to the header after it, when the
      file holds that header. */
  lemma SkipFile(source: seq<byte>, at: nat, chunk_len: nat, next: nat)
    requires at + 8 <= |source| && Be32(source[at..at + 4]) == chunk_len
    requires source[at + 4..at + 8] != IDAT_TYPE && source[at + 4..at + 8] != Iend.IEND_TYPE
    requires source[at + 4..at + 8] != Ztxt.ZTXT_TYPE
    requires next == at + 8 + chunk_len + 4 && next + 8 <= |source|
    ensures ScanFile(source, at) == ScanFile(source, next)
  {
  }

  /** The file-level loop fails on such a chunk when the file cuts it or the
      next header short. */
  lemma SkipFileShort(source: seq<byte>, at: nat, chunk_len: nat)
    requires at + 8 <= |source| && Be32(source[at..at + 4]) == chunk_len
    requires source[at + 4..at + 8] != IDAT_TYPE && source[at + 4..at + 8] != Iend.IEND_TYPE
    requires source[at + 4..at + 8] != Ztxt.ZTXT_TYPE
    requires at + 8 + chunk_len + 12 > |source|
    ensures ScanFile(source, at) == Err(Io)
  {
  }

  /** One turn of the loop over buffered bytes that are those of the file:
      it ends with what the file holds at `at` (as written, possibly an I/O
      error instead), or passes over a chunk that the file-level loop passes
      over too, with the buffer still holding the file's bytes. */
  lemma ScanOneReadsFile(v: Variant, buffered: seq<byte>, at: nat, amount_read: nat, source: seq<byte>)
    requires at + 8 <= amount_read <= |buffered| && amount_read <= |source|
    requires buffered[..amount_read] == source[..amount_read]
    ensures var r := ScanOne(v, buffered, at, amount_read, source);
      && (r.Done? ==> r.result == ScanFile(source, at) || (v == AsWritten && r.result == Err(Io)))
      && (r.Skipped? ==> r.buffered[..r.amount_read] == source[..r.amount_read]
                         && ScanFile(source, at) == ScanFile(source, r.position))
  {
    HeaderFromFile(buffered, at, amount_read, source);
    var chunk_type := source[at + 4..at + 8];
    if chunk_type == Ztxt.ZTXT_TYPE {
      ScanOneZtxt(v, buffered, at, amount_read, source);
    } else if chunk_type != IDAT_TYPE && chunk_type != Iend.IEND_TYPE {
      ScanOneOther(v, buffered, at, amount_read, source);
    }
  }

  /** Once the bytes buffered so far are those of the file, the corrected
      loop finds what the file holds, and the loop as written finds the same
      or fails with an I/O error. */
  lemma {:induction false} ScanReadsFile(v: Variant, buffered: seq<byte>, at: nat, amount_read: nat, source: seq<byte>)
    requires at + 8 <= amount_read <= |buffered| && amount_read <= |source|
    requires buffered[..amount_read] == source[..amount_read]
    ensures v == Corrected ==> ScanMeta(v, buffered, at, amount_read, source) == ScanFile(source, at)
    ensures v == AsWritten ==> ScanMeta(v, buffered, at, amount_read, source) == ScanFile(source, at)
                               || ScanMeta(v, buffered, at, amount_read, source) == Err(Io)
    decreases |source| - at
  {
    ScanOneReadsFile(v, buffered, at, amount_read, source);
    match ScanOne(v, buffered, at, amount_read, source)
    case Done(_) =>
    case Skipped(next_buffered, next, next_amount_read) =>
      ScanReadsFile(v, next_buffered, next, next_amount_read, source);
  }

  /** A whole zTXt chunk loaded through the generic chunk codec, then
      converted. */
  function LoadZtxt(chunk_full: seq<byte>, crc: Chunk.Crc32): (r: Result<Ztxt.RawZtxtChunk>)
    ensures r.Ok? ==> Ztxt.ChunkBytes(r.value) == chunk_full
  {
    var raw_chunk :- Chunk.Load(chunk_full, crc);
    Ztxt.TryFrom(raw_chunk)
  }

  /** The buffer `RawDmi::load_meta` starts from: the first read of up to 500
      bytes, zero-filled to 500. */
  function FirstBuffer(source: seq<byte>): (b: seq<byte>)
    ensures |b| == ASSUMED_ZTXT_MAX
    ensures b[..Min(ASSUMED_ZTXT_MAX, |source|)] == source[..Min(ASSUMED_ZTXT_MAX, |source|)]
  {
    var n := Min(ASSUMED_ZTXT_MAX, |source|);
    source[..n] + seq(ASSUMED_ZTXT_MAX - n, i => 0)
  }

  /** What `RawDmi::load_meta` reads from a file: at least 72 bytes in the
      first read, the PNG signature, a 13-byte IHDR chunk first, then the
      first zTXt chunk before any IDAT or IEND chunk. */
  function DecodeMeta(v: Variant, source: seq<byte>, crc: Chunk.Crc32): (r: Result<RawDmiMetadata>)
    ensures |source| < 72 || source[..8] != PNG_HEADER || source[8..16] != IHDR_HEADER ==> r == Err(Generic)
    ensures r.Ok? ==> Chunk.Bytes(r.value.chunk_ihdr) == source[8..33]
    ensures r.Ok? ==> r.value.chunk_ihdr.data_length == IHDR_HEADER[..4] && r.value.chunk_ihdr.chunk_type == IHDR_TYPE
    ensures r.Ok? ==> |r.value.chunk_ihdr.data| == 13 && r.value.chunk_ztxt.chunk_type == Ztxt.ZTXT_TYPE
  {
    var dmi_bytes_read := Min(ASSUMED_ZTXT_MAX, |source|);
    var dmi_bytes := FirstBuffer(source);
    if dmi_bytes_read < 72 then Err(Generic)
    else
      FirstBufferSlice(source, 0, 8);
      FirstBufferSlice(source, 8, 33);
      if dmi_bytes[0..8] != PNG_HEADER then Err(Generic)
      else
        var ihdr := dmi_bytes[8..33];
        assert ihdr[0..8] == source[8..16];
        if ihdr[0..8] != IHDR_HEADER then Err(Generic)
        else
          var chunk_ihdr :- Chunk.Load(ihdr, crc);
          assert chunk_ihdr.data_length == ihdr[..4] == IHDR_HEADER[..4];
          assert chunk_ihdr.chunk_type == Chunk.Bytes(chunk_ihdr)[4..8] == ihdr[4..8] == IHDR_HEADER[4..8];
          var chunk_full :- ScanMeta(v, dmi_bytes, 33, dmi_bytes_read, source);
          var chunk_ztxt :- LoadZtxt(chunk_full, crc);
          Ok(RawDmiMetadata(chunk_ihdr, chunk_ztxt))
  }

  lemma FirstBufferSlice(source: seq<byte>, i: nat, j: nat)
    requires i <= j <= Min(ASSUMED_ZTXT_MAX, |source|)
    ensures FirstBuffer(source)[i..j] == source[i..j]
  {
    var n := Min(ASSUMED_ZTXT_MAX, |source|);
    var b := FirstBuffer(source);
    forall k | i <= k < j ensures b[k] == source[k] {
      assert b[k] == b[..n][k] && source[k] == source[..n][k];
    }
  }

  /** One turn of the chunk loop of `RawDmi::load_meta`, with the cursor at
      the chunk header at `position`. */
  method ScanChunk(v: Variant, buffered: seq<byte>, position: nat, amount_read: nat, source: seq<byte>) returns (r: ScanStep)
    requires position + 8 <= amount_read <= |buffered| && amount_read <= |source|
    ensures r == ScanOne(v, buffered, position, amount_read, source)
  {
    var chunk_header_full := buffered[position..position + 8];
    var chunk_len: nat := Be32(chunk_header_full[..4]);
    var chunk_header_type := chunk_header_full[4..8];
    if chunk_header_type == IDAT_TYPE || chunk_header_type == Iend.IEND_TYPE {
      return Done(Err(Generic));
    }
    if chunk_header_type != Ztxt.ZTXT_TYPE {
      var skipped := Buffer(v, buffered, position + 8, source, amount_read, chunk_len + 12);
      if skipped.Err? {
        return Done(Err(skipped.error));
      }
      var refilled := skipped.value;
      return Skipped(refilled.0, position + 8 + chunk_len + 4, refilled.1);
    }
    var found := Buffer(v, buffered, position + 8, source, amount_read, chunk_len + 4);
    if found.Err? {
      return Done(Err(found.error));
    }
    var refilled := found.value;
    var chunk_data := refilled.0[position + 8..position + 8 + chunk_len + 4];
    return Done(Ok(chunk_header_full + chunk_data));
  }

  /** The chunk loop of `RawDmi::load_meta`, with the cursor at the chunk
      header at `position` of a buffer that grows as more of the reader is
      needed; it stops with the bytes of the first zTXt chunk. */
  method ScanChunks(v: Variant, buffered0: seq<byte>, position0: nat, amount_read0: nat, source: seq<byte>)
    returns (r: Result<seq<byte>>)
    requires position0 + 8 <= amount_read0 <= |buffered0| && amount_read0 <= |source|
    ensures r == ScanMeta(v, buffered0, position0, amount_read0, source)
  {
    var buffered, position, dmi_bytes_read := buffered0, position0, amount_read0;
    while true
      invariant position + 8 <= dmi_bytes_read <= |buffered| && dmi_bytes_read <= |source|
      invariant ScanMeta(v, buffered, position, dmi_bytes_read, source) == ScanMeta(v, buffered0, position0, amount_read0, source)
      decreases |source| - position
    {
      var step := ScanChunk(v, buffered, position, dmi_bytes_read, source);
      match step {
        case Done(result) =>
          return result;
        case Skipped(b, p, n) =>
          buffered, position, dmi_bytes_read := b, p, n;
      }
    }
  }

  /** `RawDmi::load_meta`: the first read, the signature and IHDR checks,
      the chunk loop, then the found zTXt chunk loaded and converted. */
  method LoadMeta(v: Variant, source: seq<byte>, crc: Chunk.Crc32) returns (r: Result<RawDmiMetadata>)
    ensures r == DecodeMeta(v, source, crc)
  {
    var dmi_bytes_read := Min(ASSUMED_ZTXT_MAX, |source|);
    var dmi_bytes := FirstBuffer(source);
    if dmi_bytes_read < 72 {
      return Err(Generic);
    }
    var png_header := dmi_bytes[0..8];
    if png_header != PNG_HEADER {
      return Err(Generic);
    }
    var ihdr := dmi_bytes[8..33];
    if ihdr[0..8] != IHDR_HEADER {
      return Err(Generic);
    }
    var chunk_ihdr :- Chunk.Load(ihdr, crc);
    var chunk_full :- ScanChunks(v, dmi_bytes, 33, dmi_bytes_read, source);
    var raw_chunk :- Chunk.Load(chunk_full, crc);
    var chunk_ztxt :- Ztxt.TryFrom(raw_chunk);
    return Ok(RawDmiMetadata(chunk_ihdr, chunk_ztxt));
  }

  // ---- save ----

  /** The chunks of a list, one after the other, as saved. */
  function ChunksBytes(cs: seq<RawGenericChunk>): seq<byte>
  {
    if cs == [] then [] else Chunk.Bytes(cs[0]) + ChunksBytes(cs[1..])
  }

  lemma {:induction false} ChunksBytesAppend(a: seq<RawGenericChunk>, b: seq<RawGenericChunk>)
    ensures ChunksBytes(a + b) == ChunksBytes(a) + ChunksBytes(b)
  {
    if a == [] {
      assert a + b == b;
    } else {
      assert (a + b)[1..] == a[1..] + b;
      ChunksBytesAppend(a[1..], b);
    }
  }

  function OtherChunks(d: RawDmi): seq<RawGenericChunk>
  {
    if d.other_chunks.Some? then d.other_chunks.value else []
  }

  function ZtxtBytes(d: RawDmi, include_ztxt: bool): seq<byte>
  {
    if include_ztxt && d.chunk_ztxt.Some? then Ztxt.ChunkBytes(d.chunk_ztxt.value) else []
  }

  function PlteBytes(d: RawDmi): seq<byte>
  {
    if d.chunk_plte.Some? then Chunk.Bytes(d.chunk_plte.value) else []
  }

  /** Everything after the signature, in the order `RawDmi::save` writes it:
      IHDR, zTXt (when asked for and present), PLTE, the other chunks, the
      IDAT chunks and IEND. */
  function Body(d: RawDmi, include_ztxt: bool): seq<byte>
  {
    Chunk.Bytes(d.chunk_ihdr) + (ZtxtBytes(d, include_ztxt) + (PlteBytes(d) + (ChunksBytes(OtherChunks(d))
      + (ChunksBytes(d.chunks_idat) + Iend.Bytes(d.chunk_iend)))))
  }

  /** The bytes of a saved file. */
  function Serialize(d: RawDmi, include_ztxt: bool): (r: seq<byte>)
    ensures |d.header| <= |r| && r[..|d.header|] == d.header
    ensures |r| >= |d.header| + 24 + |d.chunk_ihdr.data|
    ensures r[|r| - 12..] == Iend.Bytes(d.chunk_iend)
  {
    d.header + Body(d, include_ztxt)
  }

  /** The length check `RawDmi::save` makes after saving a chunk: at least as
      many bytes written as the length field and the 12 framing bytes call for. */
  predicate LengthFits(c: RawGenericChunk)
  {
    Be32(c.data_length) <= |c.data|
  }

  predicate AllFit(cs: seq<RawGenericChunk>)
  {
    forall i :: 0 <= i < |cs| ==> LengthFits(cs[i])
  }

  lemma AllFitSplit(cs: seq<RawGenericChunk>)
    requires |cs| > 0
    ensures AllFit(cs) <==> LengthFits(cs[0]) && AllFit(cs[1..])
  {
    if LengthFits(cs[0]) && AllFit(cs[1..]) {
      forall k | 0 <= k < |cs|
        ensures LengthFits(cs[k])
      {
        if k > 0 {
          assert cs[k] == cs[1..][k - 1];
        }
      }
    }
  }

  predicate ZtxtFits(d: RawDmi, include_ztxt: bool)
  {
    include_ztxt && d.chunk_ztxt.Some? ==>
      Be32(d.chunk_ztxt.value.data_length) <= |Ztxt.DataBytes(d.chunk_ztxt.value.data)|
  }

  predicate PlteFits(d: RawDmi)
  {
    d.chunk_plte.Some? ==> LengthFits(d.chunk_plte.value)
  }

  /** Every check `RawDmi::save` makes passes. */
  predicate Consistent(d: RawDmi, include_ztxt: bool)
  {
    LengthFits(d.chunk_ihdr) && (ZtxtFits(d, include_ztxt) && (PlteFits(d) && (AllFit(OtherChunks(d))
      && (AllFit(d.chunks_idat) && Be32(d.chunk_iend.data_length) == 0))))
  }

  /** A chunk saved with `RawGenericChunk::save`, then the length check. */
  method SaveChecked(c: RawGenericChunk, w: Writer) returns (r: Result<nat>)
    modifies w
    ensures Wrote(old(w.out), old(w.room), w.out, w.room, Chunk.Bytes(c), LengthFits(c))
    ensures r.Ok? <==> LengthFits(c) && |Chunk.Bytes(c)| <= old(w.room)
    ensures r.Ok? ==> r.value == |Chunk.Bytes(c)|
  {
    var bytes_written :- Chunk.Save(c, w);
    if bytes_written < Be32(c.data_length) + 12 {
      return Err(Generic);
    }
    return Ok(bytes_written);
  }

  /** The loops of `RawDmi::save` over the other chunks and over the IDAT
      chunks: each chunk saved and checked in turn, stopping at the first
      failure; the count is the sum of the chunk sizes. */
  method SaveChunks(cs: seq<RawGenericChunk>, w: Writer) returns (r: Result<nat>)
    modifies w
    ensures Wrote(old(w.out), old(w.room), w.out, w.room, ChunksBytes(cs), AllFit(cs))
    ensures r.Ok? <==> AllFit(cs) && |ChunksBytes(cs)| <= old(w.room)
    ensures r.Ok? ==> r.value == |ChunksBytes(cs)|
  {
    ghost var run := SaveRun(w.out, w.room, ChunksBytes(cs), AllFit(cs));
    Start(w.out, w.room, ChunksBytes(cs), AllFit(cs));
    var total_bytes_written := 0;
    for i := 0 to |cs|
      invariant Pending(run, w.out, w.room, ChunksBytes(cs[i..]), AllFit(cs[i..]))
      invariant total_bytes_written == |w.out| - |run.out0|
    {
      ghost var out1, room1 := w.out, w.room;
      assert cs[i..][1..] == cs[i + 1..];
      AllFitSplit(cs[i..]);
      var result := SaveChecked(cs[i], w);
      if result.Err? {
        Stop(run, out1, room1, w.out, w.room, Chunk.Bytes(cs[i]), ChunksBytes(cs[i + 1..]), LengthFits(cs[i]), AllFit(cs[i + 1..]));
        return Err(result.error);
      }
      Continue(run, out1, room1, w.out, w.room, Chunk.Bytes(cs[i]), ChunksBytes(cs[i + 1..]), LengthFits(cs[i]), AllFit(cs[i + 1..]));
      total_bytes_written := total_bytes_written + result.value;
    }
    Finished(run, w.out, w.room);
    return Ok(total_bytes_written);
  }

  // Each section of `RawDmi::save` below goes on with a pending save `run`
  // that has its own bytes, then `rest`, still to write: on success the save
  // is pending with `rest`, on failure it has stopped.

  /** The signature. */
  method SaveHeaderSection(d: RawDmi, w: Writer, ghost run: SaveRun, ghost rest: seq<byte>, ghost okRest: bool)
    returns (r: Result<nat>)
    modifies w
    requires Pending(run, w.out, w.room, d.header + rest, true && okRest)
    ensures r.Ok? ==> Pending(run, w.out, w.room, rest, okRest) && r.value == |d.header|
    ensures r.Err? ==> Stopped(run, w.out, w.room)
  {
    ghost var out1, room1 := w.out, w.room;
    var bytes_written := w.Write(d.header);
    assert Wrote(out1, room1, w.out, w.room, d.header, true);
    if bytes_written < 8 {
      Stop(run, out1, room1, w.out, w.room, d.header, rest, true, okRest);
      return Err(Generic);
    }
    Continue(run, out1, room1, w.out, w.room, d.header, rest, true, okRest);
    return Ok(bytes_written);
  }

  /** The IHDR chunk and its length check. */
  method SaveIhdrSection(d: RawDmi, w: Writer, ghost run: SaveRun, ghost rest: seq<byte>, ghost okRest: bool)
    returns (r: Result<nat>)
    modifies w
    requires Pending(run, w.out, w.room, Chunk.Bytes(d.chunk_ihdr) + rest, LengthFits(d.chunk_ihdr) && okRest)
    ensures r.Ok? ==> Pending(run, w.out, w.room, rest, okRest) && r.value == |Chunk.Bytes(d.chunk_ihdr)|
    ensures r.Err? ==> Stopped(run, w.out, w.room)
  {
    ghost var out1, room1 := w.out, w.room;
    r := SaveChecked(d.chunk_ihdr, w);
    if r.Err? {
      Stop(run, out1, room1, w.out, w.room, Chunk.Bytes(d.chunk_ihdr), rest, LengthFits(d.chunk_ihdr), okRest);
    } else {
      Continue(run, out1, room1, w.out, w.room, Chunk.Bytes(d.chunk_ihdr), rest, LengthFits(d.chunk_ihdr), okRest);
    }
  }

  /** The zTXt chunk, saved only when asked for and present, then its length
      check. */
  method SaveZtxtSection(d: RawDmi, w: Writer, include_ztxt: bool, ghost run: SaveRun, ghost rest: seq<byte>, ghost okRest: bool)
    returns (r: Result<nat>)
    modifies w
    requires Pending(run, w.out, w.room, ZtxtBytes(d, include_ztxt) + rest, ZtxtFits(d, include_ztxt) && okRest)
    ensures r.Ok? ==> Pending(run, w.out, w.room, rest, okRest) && r.value == |ZtxtBytes(d, include_ztxt)|
    ensures r.Err? ==> Stopped(run, w.out, w.room)
  {
    ghost var out1, room1 := w.out, w.room;
    r := Ok(0);
    if include_ztxt && d.chunk_ztxt.Some? {
      var chunk_ztxt := d.chunk_ztxt.value;
      r := Ztxt.SaveChunk(chunk_ztxt, w);
      if r.Ok? && r.value < Be32(chunk_ztxt.data_length) + 12 {
        r := Err(Generic);
      }
    }
    assert Wrote(out1, room1, w.out, w.room, ZtxtBytes(d, include_ztxt), ZtxtFits(d, include_ztxt));
    if r.Err? {
      Stop(run, out1, room1, w.out, w.room, ZtxtBytes(d, include_ztxt), rest, ZtxtFits(d, include_ztxt), okRest);
    } else {
      Continue(run, out1, room1, w.out, w.room, ZtxtBytes(d, include_ztxt), rest, ZtxtFits(d, include_ztxt), okRest);
    }
  }

  /** The PLTE chunk, when present, and its length check. */
  method SavePlteSection(d: RawDmi, w: Writer, ghost run: SaveRun, ghost rest: seq<byte>, ghost okRest: bool)
    returns (r: Result<nat>)
    modifies w
    requires Pending(run, w.out, w.room, PlteBytes(d) + rest, PlteFits(d) && okRest)
    ensures r.Ok? ==> Pending(run, w.out, w.room, rest, okRest) && r.value == |PlteBytes(d)|
    ensures r.Err? ==> Stopped(run, w.out, w.room)
  {
    ghost var out1, room1 := w.out, w.room;
    r := Ok(0);
    if d.chunk_plte.Some? {
      r := SaveChecked(d.chunk_plte.value, w);
    }
    if r.Err? {
      Stop(run, out1, room1, w.out, w.room, PlteBytes(d), rest, PlteFits(d), okRest);
    } else {
      Continue(run, out1, room1, w.out, w.room, PlteBytes(d), rest, PlteFits(d), okRest);
    }
  }

  /** The chunks of unknown type, when there are any. */
  method SaveOtherSection(d: RawDmi, w: Writer, ghost run: SaveRun, ghost rest: seq<byte>, ghost okRest: bool)
    returns (r: Result<nat>)
    modifies w
    requires Pending(run, w.out, w.room, ChunksBytes(OtherChunks(d)) + rest, AllFit(OtherChunks(d)) && okRest)
    ensures r.Ok? ==> Pending(run, w.out, w.room, rest, okRest) && r.value == |ChunksBytes(OtherChunks(d))|
    ensures r.Err? ==> Stopped(run, w.out, w.room)
  {
    ghost var out1, room1 := w.out, w.room;
    r := Ok(0);
    if d.other_chunks.Some? {
      r := SaveChunks(d.other_chunks.value, w);
    }
    if r.Err? {
      Stop(run, out1, room1, w.out, w.room, ChunksBytes(OtherChunks(d)), rest, AllFit(OtherChunks(d)), okRest);
    } else {
      Continue(run, out1, room1, w.out, w.room, ChunksBytes(OtherChunks(d)), rest, AllFit(OtherChunks(d)), okRest);
    }
  }

  /** The IDAT chunks. */
  method SaveIdatSection(d: RawDmi, w: Writer, ghost run: SaveRun, ghost rest: seq<byte>, ghost okRest: bool)
    returns (r: Result<nat>)
    modifies w
    requires Pending(run, w.out, w.room, ChunksBytes(d.chunks_idat) + rest, AllFit(d.chunks_idat) && okRest)
    ensures r.Ok? ==> Pending(run, w.out, w.room, rest, okRest) && r.value == |ChunksBytes(d.chunks_idat)|
    ensures r.Err? ==> Stopped(run, w.out, w.room)
  {
    ghost var out1, room1 := w.out, w.room;
    r := SaveChunks(d.chunks_idat, w);
    if r.Err? {
      Stop(run, out1, room1, w.out, w.room, ChunksBytes(d.chunks_idat), rest, AllFit(d.chunks_idat), okRest);
    } else {
      Continue(run, out1, room1, w.out, w.room, ChunksBytes(d.chunks_idat), rest, AllFit(d.chunks_idat), okRest);
    }
  }

  /** The IEND chunk, then the check of its length field, which passes only
      for a zero length; it ends the save. */
  method SaveIendSection(d: RawDmi, w: Writer, ghost run: SaveRun)
    returns (r: Result<nat>)
    modifies w
    requires Pending(run, w.out, w.room, Iend.Bytes(d.chunk_iend), Be32(d.chunk_iend.data_length) == 0)
    ensures r.Ok? ==> Pending(run, w.out, w.room, [], true) && r.value == |Iend.Bytes(d.chunk_iend)|
    ensures r.Err? ==> Stopped(run, w.out, w.room)
  {
    ghost var out1, room1 := w.out, w.room;
    r := Iend.Save(d.chunk_iend, w);
    if r.Ok? && r.value < Be32(d.chunk_iend.data_length) + 12 {
      r := Err(Generic);
    }
    ghost var okX := Be32(d.chunk_iend.data_length) == 0;
    assert Wrote(out1, room1, w.out, w.room, Iend.Bytes(d.chunk_iend), okX);
    assert Iend.Bytes(d.chunk_iend) + [] == Iend.Bytes(d.chunk_iend);
    if r.Err? {
      Stop(run, out1, room1, w.out, w.room, Iend.Bytes(d.chunk_iend), [], okX, true);
    } else {
      Continue(run, out1, room1, w.out, w.room, Iend.Bytes(d.chunk_iend), [], okX, true);
    }
  }

  /** The sections after the zTXt chunk: PLTE, the chunks of unknown type,
      IDAT and IEND, each with its length check. */
  method SaveImageSections(d: RawDmi, w: Writer, ghost run: SaveRun, ghost rest: seq<byte>, ghost okRest: bool)
    returns (r: Result<nat>)
    modifies w
    requires rest == PlteBytes(d) + (ChunksBytes(OtherChunks(d)) + (ChunksBytes(d.chunks_idat) + Iend.Bytes(d.chunk_iend)))
    requires okRest == (PlteFits(d) && (AllFit(OtherChunks(d)) && (AllFit(d.chunks_idat) && Be32(d.chunk_iend.data_length) == 0)))
    requires Pending(run, w.out, w.room, rest, okRest)
    ensures r.Ok? ==> Pending(run, w.out, w.room, [], true) && r.value == |rest|
    ensures r.Err? ==> Stopped(run, w.out, w.room)
  {
    ghost var r6 := Iend.Bytes(d.chunk_iend);
    ghost var r5 := ChunksBytes(d.chunks_idat) + r6;
    ghost var r4 := ChunksBytes(OtherChunks(d)) + r5;
    ghost var o6 := Be32(d.chunk_iend.data_length) == 0;
    ghost var o5 := AllFit(d.chunks_idat) && o6;
    ghost var o4 := AllFit(OtherChunks(d)) && o5;
    var total_bytes_written := 0;
    var result := SavePlteSection(d, w, run, r4, o4);
    if result.Err? {
      return Err(result.error);
    }
    total_bytes_written := total_bytes_written + result.value;
    assert total_bytes_written + |r4| == |rest|;
    result := SaveOtherSection(d, w, run, r5, o5);
    if result.Err? {
      return Err(result.error);
    }
    total_bytes_written := total_bytes_written + result.value;
    assert total_bytes_written + |r5| == |rest|;
    result := SaveIdatSection(d, w, run, r6, o6);
    if result.Err? {
      return Err(result.error);
    }
    total_bytes_written := total_bytes_written + result.value;
    assert total_bytes_written + |r6| == |rest|;
    result := SaveIendSection(d, w, run);
    if result.Err? {
      return Err(result.error);
    }
    return Ok(total_bytes_written + result.value);
  }

  /** `RawDmi::save`: the signature, then the chunks in the order of `Body`,
      each followed by the check that its length field was honoured. The sink
      always receives a prefix of the serialized file; when every check passes
      it receives all of it that fits, and the save succeeds exactly when that
      is all of it, returning the file size. */
  method Save(d: RawDmi, w: Writer, include_ztxt: bool) returns (r: Result<nat>)
    modifies w
    ensures Wrote(old(w.out), old(w.room), w.out, w.room, Serialize(d, include_ztxt), Consistent(d, include_ztxt))
    ensures r.Ok? <==> Consistent(d, include_ztxt) && |Serialize(d, include_ztxt)| <= old(w.room)
    ensures r.Ok? ==> r.value == |Serialize(d, include_ztxt)|
  {
    // the bytes still to write after each section, and the checks still to pass
    ghost var r3 := PlteBytes(d) + (ChunksBytes(OtherChunks(d)) + (ChunksBytes(d.chunks_idat) + Iend.Bytes(d.chunk_iend)));
    ghost var r2 := ZtxtBytes(d, include_ztxt) + r3;
    ghost var r1 := Chunk.Bytes(d.chunk_ihdr) + r2;
    ghost var o3 := PlteFits(d) && (AllFit(OtherChunks(d)) && (AllFit(d.chunks_idat) && Be32(d.chunk_iend.data_length) == 0));
    ghost var o2 := ZtxtFits(d, include_ztxt) && o3;
    ghost var o1 := LengthFits(d.chunk_ihdr) && o2;
    ghost var run := SaveRun(w.out, w.room, Serialize(d, include_ztxt), Consistent(d, include_ztxt));
    Start(w.out, w.room, d.header + r1, true && o1);

    var total_bytes_written := 0;
    var result := SaveHeaderSection(d, w, run, r1, o1);
    if result.Err? {
      return Err(result.error);
    }
    total_bytes_written := total_bytes_written + result.value;
    assert total_bytes_written + |r1| == |run.whole|;
    result := SaveIhdrSection(d, w, run, r2, o2);
    if result.Err? {
      return Err(result.error);
    }
    total_bytes_written := total_bytes_written + result.value;
    assert total_bytes_written + |r2| == |run.whole|;
    result := SaveZtxtSection(d, w, include_ztxt, run, r3, o3);
    if result.Err? {
      return Err(result.error);
    }
    total_bytes_written := total_bytes_written + result.value;
    assert total_bytes_written + |r3| == |run.whole|;
    result := SaveImageSections(d, w, run, r3, o3);
    if result.Err? {
      return Err(result.error);
    }
    total_bytes_written := total_bytes_written + result.value;
    Finished(run, w.out, w.room);
    return Ok(total_bytes_written);
  }

  /** `RawDmi::output_buffer_size`: 45 bytes for signature, a 13-byte IHDR and
      IEND, plus each saved chunk's size. It is the size of the saved file
      exactly when IHDR has 13 data bytes. */
  method OutputBufferSize(d: RawDmi, include_ztxt: bool) returns (total_bytes: nat)
    ensures total_bytes + |d.chunk_ihdr.data| == |Serialize(d, include_ztxt)| + 13
  {
    total_bytes := 45;
    if include_ztxt && d.chunk_ztxt.Some? {
      var chunk_ztxt := d.chunk_ztxt.value;
      total_bytes := total_bytes + |chunk_ztxt.data.keyword| + |chunk_ztxt.data.compressed_text| + 14;
    }
    if d.chunk_plte.Some? {
      total_bytes := total_bytes + |d.chunk_plte.value.data| + 12;
    }
    ghost var fixed := total_bytes;
    if d.other_chunks.Some? {
      var other_chunks := d.other_chunks.value;
      for i := 0 to |other_chunks|
        invariant total_bytes == fixed + |ChunksBytes(other_chunks[..i])|
      {
        assert other_chunks[..i + 1] == other_chunks[..i] + [other_chunks[i]];
        ChunksBytesAppend(other_chunks[..i], [other_chunks[i]]);
        total_bytes := total_bytes + |other_chunks[i].data| + 12;
      }
      assert other_chunks[..|other_chunks|] == other_chunks;
    }
    ghost var before_idat := total_bytes;
    for i := 0 to |d.chunks_idat|
      invariant total_bytes == before_idat + |ChunksBytes(d.chunks_idat[..i])|
    {
      assert d.chunks_idat[..i + 1] == d.chunks_idat[..i] + [d.chunks_idat[i]];
      ChunksBytesAppend(d.chunks_idat[..i], [d.chunks_idat[i]]);
      total_bytes := total_bytes + |d.chunks_idat[i].data| + 12;
    }
    assert d.chunks_idat[..|d.chunks_idat|] == d.chunks_idat;
  }

  // ---- round trip ----

  /** A chunk whose length field tells its data size, whose type is four
      letters and whose CRC is right: it saves and loads back unchanged. */
  predicate GoodChunk(c: RawGenericChunk, crc: Chunk.Crc32)
  {
    Be32(c.data_length) == |c.data| && Chunk.IsLetterType(c.chunk_type) && Chunk.CrcHolds(c, crc)
  }

  /** Chunks the walk files with `Collect`. */
  predicate Walkable(cs: seq<RawGenericChunk>, crc: Chunk.Crc32)
  {
    forall i :: 0 <= i < |cs| ==>
      GoodChunk(cs[i], crc) && cs[i].chunk_type != Iend.IEND_TYPE && cs[i].chunk_type != Ztxt.ZTXT_TYPE
  }

  /** A file whose every chunk is good and filed under the field of its type,
      with the PNG signature, some IDAT chunk and the default IEND chunk. */
  predicate WellFormed(d: RawDmi, crc: Chunk.Crc32)
  {
    && d.header == PNG_HEADER
    && GoodChunk(d.chunk_ihdr, crc) && d.chunk_ihdr.chunk_type == IHDR_TYPE
    && (d.chunk_ztxt.Some? ==> Ztxt.WellFormedChunk(d.chunk_ztxt.value, crc))
    && (d.chunk_plte.Some? ==> GoodChunk(d.chunk_plte.value, crc) && d.chunk_plte.value.chunk_type == PLTE_TYPE)
    && (d.other_chunks.Some? ==>
          && |d.other_chunks.value| > 0
          && forall i :: 0 <= i < |d.other_chunks.value| ==>
               GoodChunk(d.other_chunks.value[i], crc) && !IsKnownType(d.other_chunks.value[i].chunk_type))
    && |d.chunks_idat| > 0
    && (forall i :: 0 <= i < |d.chunks_idat| ==>
          GoodChunk(d.chunks_idat[i], crc) && d.chunks_idat[i].chunk_type == IDAT_TYPE)
    && d.chunk_iend == Iend.Default()
  }

  /** The stored IEND CRC is the CRC-32 of `IEND`, as it is for the real
      CRC-32 (0xAE426082). */
  predicate IendCrcHolds(crc: Chunk.Crc32)
  {
    crc(Iend.IEND_TYPE) == Be32(Iend.IEND_CRC)
  }

  /** Every check `RawDmi::save` makes passes on a well-formed file. */
  lemma WellFormedConsistent(d: RawDmi, include_ztxt: bool, crc: Chunk.Crc32)
    requires WellFormed(d, crc)
    ensures Consistent(d, include_ztxt)
  {
    assert Be32(d.chunk_iend.data_length) == 0;
  }

  /** The walk files a list of such chunks one after the other. */
  function CollectAll(f: Found, cs: seq<RawGenericChunk>): Found
    decreases |cs|
  {
    if cs == [] then f else CollectAll(Collect(f, cs[0]), cs[1..])
  }

  lemma {:induction false} CollectIdat(f: Found, cs: seq<RawGenericChunk>)
    requires forall i :: 0 <= i < |cs| ==> cs[i].chunk_type == IDAT_TYPE
    ensures CollectAll(f, cs) == f.(idat := f.idat + cs)
    decreases |cs|
  {
    if cs != [] {
      CollectIdat(Collect(f, cs[0]), cs[1..]);
      assert f.idat + [cs[0]] + cs[1..] == f.idat + cs;
    }
  }

  lemma {:induction false} CollectOther(f: Found, cs: seq<RawGenericChunk>)
    requires forall i :: 0 <= i < |cs| ==> !IsKnownType(cs[i].chunk_type)
    ensures CollectAll(f, cs) == f.(other := f.other + cs)
    decreases |cs|
  {
    if cs != [] {
      CollectOther(Collect(f, cs[0]), cs[1..]);
      assert f.other + [cs[0]] + cs[1..] == f.other + cs;
    }
  }

  /** The walk over a saved chunk loads it back and files it. */
  lemma WalkChunk(c: RawGenericChunk, rest: seq<byte>, f: Found, crc: Chunk.Crc32)
    requires GoodChunk(c, crc) && c.chunk_type != Iend.IEND_TYPE && c.chunk_type != Ztxt.ZTXT_TYPE
    ensures Walk(Chunk.Bytes(c) + rest, f, crc) == Walk(rest, Collect(f, c), crc)
  {
    var b := Chunk.Bytes(c) + rest;
    assert b[..4] == c.data_length;
    assert b[..12 + |c.data|] == Chunk.Bytes(c);
    assert b[12 + |c.data|..] == rest;
    Chunk.LoadBytes(c, crc);
    WalkCollect(b, f, crc, c);
  }

  lemma {:induction false} WalkChunks(cs: seq<RawGenericChunk>, rest: seq<byte>, f: Found, crc: Chunk.Crc32)
    requires Walkable(cs, crc)
    ensures Walk(ChunksBytes(cs) + rest, f, crc) == Walk(rest, CollectAll(f, cs), crc)
    decreases |cs|
  {
    if cs == [] {
      assert ChunksBytes(cs) + rest == rest;
    } else {
      assert ChunksBytes(cs) + rest == Chunk.Bytes(cs[0]) + (ChunksBytes(cs[1..]) + rest);
      WalkChunk(cs[0], ChunksBytes(cs[1..]) + rest, f, crc);
      assert Walkable(cs[1..], crc) by {
        forall i | 0 <= i < |cs[1..]|
          ensures GoodChunk(cs[1..][i], crc)
        {
          assert cs[1..][i] == cs[i + 1];
        }
      }
      WalkChunks(cs[1..], rest, Collect(f, cs[0]), crc);
    }
  }

  /** The walk over a saved well-formed zTXt chunk loads it back. */
  lemma WalkZtxtChunk(z: Ztxt.RawZtxtChunk, rest: seq<byte>, f: Found, crc: Chunk.Crc32)
    requires Ztxt.WellFormedChunk(z, crc)
    ensures Walk(Ztxt.ChunkBytes(z) + rest, f, crc) == Walk(rest, f.(ztxt := Some(z)), crc)
  {
    var b := Ztxt.ChunkBytes(z) + rest;
    var n := |Ztxt.DataBytes(z.data)|;
    assert b[..4] == z.data_length;
    assert b[..12 + n] == Ztxt.ChunkBytes(z);
    assert b[12 + n..] == rest;
    Ztxt.LoadAsGeneric(z, crc);
    WalkZtxt(b, f, crc, Chunk.Load(Ztxt.ChunkBytes(z), crc).value, z);
  }

  /** The walk over the default IEND chunk ends there. */
  lemma WalkIend(f: Found, crc: Chunk.Crc32)
    requires IendCrcHolds(crc)
    ensures Walk(Iend.Bytes(Iend.Default()), f, crc) == Ok((f, Iend.Default()))
  {
    var b := Iend.Bytes(Iend.Default());
    var g := Chunk.RawGenericChunk([0, 0, 0, 0], Iend.IEND_TYPE, [], Iend.IEND_CRC);
    assert Chunk.Bytes(g) == b;
    assert Iend.IEND_TYPE + [] == Iend.IEND_TYPE;
    assert Chunk.IsLetterType(Iend.IEND_TYPE);
    Chunk.LoadBytes(g, crc);
    assert b[..4] == [0, 0, 0, 0] && b[..12] == b;
    assert Be32(b[..4]) == 0;
    assert Chunk.Load(b[..12 + Be32(b[..4])], crc) == Ok(g);
    assert Iend.TryFrom(g) == Ok(Iend.Default());
  }

  /** The walk over the zTXt chunk of a save, when it was written. */
  lemma WalkSavedZtxt(d: RawDmi, include_ztxt: bool, rest: seq<byte>, f: Found, crc: Chunk.Crc32)
    requires d.chunk_ztxt.Some? ==> Ztxt.WellFormedChunk(d.chunk_ztxt.value, crc)
    ensures Walk(ZtxtBytes(d, include_ztxt) + rest, f, crc)
      == Walk(rest, f.(ztxt := if include_ztxt && d.chunk_ztxt.Some? then d.chunk_ztxt else f.ztxt), crc)
  {
    if include_ztxt && d.chunk_ztxt.Some? {
      WalkZtxtChunk(d.chunk_ztxt.value, rest, f, crc);
    } else {
      assert ZtxtBytes(d, include_ztxt) + rest == rest;
    }
  }

  /** The walk over the PLTE chunk of a save, when there is one. */
  lemma WalkSavedPlte(d: RawDmi, rest: seq<byte>, f: Found, crc: Chunk.Crc32)
    requires d.chunk_plte.Some? ==> GoodChunk(d.chunk_plte.value, crc) && d.chunk_plte.value.chunk_type == PLTE_TYPE
    ensures Walk(PlteBytes(d) + rest, f, crc)
      == Walk(rest, f.(plte := if d.chunk_plte.Some? then d.chunk_plte else f.plte), crc)
  {
    if d.chunk_plte.Some? {
      WalkChunk(d.chunk_plte.value, rest, f, crc);
    } else {
      assert PlteBytes(d) + rest == rest;
    }
  }

  /** The walk over the saved IHDR, zTXt and PLTE chunks files them. */
  lemma WalkHead(d: RawDmi, include_ztxt: bool, crc: Chunk.Crc32)
    requires WellFormed(d, crc)
    ensures Walk(Body(d, include_ztxt), NOTHING_FOUND, crc)
      == Walk(ChunksBytes(OtherChunks(d)) + (ChunksBytes(d.chunks_idat) + Iend.Bytes(d.chunk_iend)),
              Found(Some(d.chunk_ihdr), if include_ztxt then d.chunk_ztxt else None, d.chunk_plte, [], []), crc)
  {
    var tail2 := ChunksBytes(OtherChunks(d)) + (ChunksBytes(d.chunks_idat) + Iend.Bytes(d.chunk_iend));
    var tail1 := PlteBytes(d) + tail2;
    var f0 := Found(Some(d.chunk_ihdr), None, None, [], []);
    var f1 := f0.(ztxt := if include_ztxt then d.chunk_ztxt else None);
    WalkChunk(d.chunk_ihdr, ZtxtBytes(d, include_ztxt) + tail1, NOTHING_FOUND, crc);
    WalkSavedZtxt(d, include_ztxt, tail1, f0, crc);
    WalkSavedPlte(d, tail2, f1, crc);
  }

  /** The walk over the saved other, IDAT and IEND chunks files them and
      ends. */
  lemma WalkTail(d: RawDmi, f: Found, crc: Chunk.Crc32)
    requires WellFormed(d, crc) && IendCrcHolds(crc) && f.other == [] && f.idat == []
    ensures Walk(ChunksBytes(OtherChunks(d)) + (ChunksBytes(d.chunks_idat) + Iend.Bytes(d.chunk_iend)), f, crc)
      == Ok((f.(other := OtherChunks(d), idat := d.chunks_idat), Iend.Default()))
  {
    var others := OtherChunks(d);
    var f3 := f.(other := others);
    assert Walkable(others, crc);
    WalkChunks(others, ChunksBytes(d.chunks_idat) + Iend.Bytes(d.chunk_iend), f, crc);
    CollectOther(f, others);
    assert f.other + others == others;
    assert Walkable(d.chunks_idat, crc);
    WalkChunks(d.chunks_idat, Iend.Bytes(d.chunk_iend), f3, crc);
    CollectIdat(f3, d.chunks_idat);
    assert f3.idat + d.chunks_idat == d.chunks_idat;
    WalkIend(f3.(idat := d.chunks_idat), crc);
  }

  /** Loading a saved well-formed file gives it back, without its zTXt chunk
      when that was left out of the save. */
  lemma DecodeSerialize(d: RawDmi, include_ztxt: bool, crc: Chunk.Crc32)
    requires WellFormed(d, crc) && IendCrcHolds(crc) && |Serialize(d, include_ztxt)| >= 72
    ensures Decode(Serialize(d, include_ztxt), crc)
      == Ok(if include_ztxt then d else d.(chunk_ztxt := None))
  {
    var s := Serialize(d, include_ztxt);
    assert s[..8] == PNG_HEADER;
    assert s[8..] == Body(d, include_ztxt);
    var f := Found(Some(d.chunk_ihdr), if include_ztxt then d.chunk_ztxt else None, d.chunk_plte, [], []);
    WalkHead(d, include_ztxt, crc);
    WalkTail(d, f, crc);
  }

  /** Bytes after the IEND chunk are never looked at. */
  lemma {:induction false} WalkIgnoresTrailing(rest: seq<byte>, f: Found, crc: Chunk.Crc32, trailing: seq<byte>)
    requires Walk(rest, f, crc).Ok?
    ensures Walk(rest + trailing, f, crc) == Walk(rest, f, crc)
    decreases |rest|
  {
    var n: nat := Be32(rest[..4]);
    AppendAfter(rest, trailing, 4);
    AppendAfter(rest, trailing, 12 + n);
    var raw_chunk := Chunk.Load(rest[..12 + n], crc).value;
    if raw_chunk.chunk_type == Ztxt.ZTXT_TYPE {
      var z := Ztxt.TryFrom(raw_chunk).value;
      WalkIgnoresTrailing(rest[12 + n..], f.(ztxt := Some(z)), crc, trailing);
    } else if raw_chunk.chunk_type != Iend.IEND_TYPE {
      WalkIgnoresTrailing(rest[12 + n..], Collect(f, raw_chunk), crc, trailing);
    }
  }

  /** Cutting `a + b` inside `a`. */
  lemma AppendAfter(a: seq<byte>, b: seq<byte>, n: nat)
    requires n <= |a|
    ensures (a + b)[..n] == a[..n] && (a + b)[n..] == a[n..] + b
  {
  }

  /** A file that loads loads the same with anything appended to it. */
  lemma DecodeIgnoresTrailing(dmi_bytes: seq<byte>, crc: Chunk.Crc32, trailing: seq<byte>)
    requires Decode(dmi_bytes, crc).Ok?
    ensures Decode(dmi_bytes + trailing, crc) == Decode(dmi_bytes, crc)
  {
    AppendAfter(dmi_bytes, trailing, 8);
    WalkIgnoresTrailing(dmi_bytes[8..], NOTHING_FOUND, crc, trailing);
  }

  // ---- load_meta on saved files ----

  /** The loop returns a whole zTXt chunk found at the cursor, once the bytes
      buffered so far are those of the file; as written, it fails with an
      I/O error instead when the buffering does not reach the chunk's end. */
  lemma {:induction false} ScanFindsZtxt(v: Variant, buffered: seq<byte>, at: nat, amount_read: nat, source: seq<byte>, chunk: seq<byte>)
    requires at + 8 <= amount_read <= |buffered| && amount_read <= |source|
    requires buffered[..amount_read] == source[..amount_read]
    requires |chunk| >= 12 && chunk[4..8] == Ztxt.ZTXT_TYPE && Be32(chunk[..4]) == |chunk| - 12
    requires at + |chunk| <= |source| && source[at..at + |chunk|] == chunk
    ensures ScanMeta(v, buffered, at, amount_read, source)
      == if Reaches(v, at, amount_read, |source|, |chunk|) then Ok(chunk) else Err(Io)
  {
    SliceOfSlice(source, at, at + |chunk|, 0, 4);
    SliceOfSlice(source, at, at + |chunk|, 4, 8);
    ScanOneZtxt(v, buffered, at, amount_read, source);
  }

  /** Where a saved file's bytes are: signature, IHDR, then the rest of the
      body. */
  lemma SavedLayout(d: RawDmi, include_ztxt: bool)
    ensures var s := Serialize(d, include_ztxt);
      var k := 8 + |Chunk.Bytes(d.chunk_ihdr)|;
      && s[..8] == d.header && s[8..k] == Chunk.Bytes(d.chunk_ihdr)
      && s[k..] == ZtxtBytes(d, include_ztxt) + (PlteBytes(d) + (ChunksBytes(OtherChunks(d))
           + (ChunksBytes(d.chunks_idat) + Iend.Bytes(d.chunk_iend))))
  {
    var s := Serialize(d, include_ztxt);
    AppendAfter(d.header, Body(d, include_ztxt), 8);
    var rest := ZtxtBytes(d, include_ztxt) + (PlteBytes(d) + (ChunksBytes(OtherChunks(d))
      + (ChunksBytes(d.chunks_idat) + Iend.Bytes(d.chunk_iend))));
    AppendAfter(Chunk.Bytes(d.chunk_ihdr), rest, |Chunk.Bytes(d.chunk_ihdr)|);
    assert s[8..] == Chunk.Bytes(d.chunk_ihdr) + rest;
    var k := 8 + |Chunk.Bytes(d.chunk_ihdr)|;
    assert s[8..k] == s[8..][..k - 8];
    assert s[k..] == s[8..][k - 8..];
  }

  /** The first 25 bytes after the signature of a saved file with a 13-byte
      IHDR pass the IHDR check of `RawDmi::load_meta` and load as that chunk. */
  lemma IhdrOfSaved(d: RawDmi, include_ztxt: bool, crc: Chunk.Crc32)
    requires WellFormed(d, crc) && |d.chunk_ihdr.data| == 13 && |Serialize(d, include_ztxt)| >= 72
    ensures var b := FirstBuffer(Serialize(d, include_ztxt));
      && b[..8] == PNG_HEADER && b[8..33][0..8] == IHDR_HEADER
      && Chunk.Load(b[8..33], crc) == Ok(d.chunk_ihdr)
  {
    var s := Serialize(d, include_ztxt);
    SavedLayout(d, include_ztxt);
    FirstBufferSlice(s, 0, 8);
    FirstBufferSlice(s, 8, 33);
    ToBe32OfBe32(d.chunk_ihdr.data_length);
    assert ToBe32(13) == [0, 0, 0, 13];
    assert Chunk.Bytes(d.chunk_ihdr)[0..8] == d.chunk_ihdr.data_length + IHDR_TYPE;
    Chunk.LoadBytes(d.chunk_ihdr, crc);
  }

  /** `Reaches` for the zTXt chunk of a saved file, which starts at byte 33
      when the IHDR chunk holds 13 bytes. */
  predicate ZtxtReached(v: Variant, d: RawDmi)
    requires d.chunk_ztxt.Some?
  {
    var s := Serialize(d, true);
    Reaches(v, 33, Min(ASSUMED_ZTXT_MAX, |s|), |s|, |Ztxt.ChunkBytes(d.chunk_ztxt.value)|)
  }

  /** The loop of `RawDmi::load_meta` over a saved file with a zTXt chunk
      stops at once with that chunk's bytes, or, as written, with an I/O
      error when its buffering does not reach the chunk's end. */
  lemma ScanOfSaved(v: Variant, d: RawDmi, crc: Chunk.Crc32)
    requires WellFormed(d, crc) && d.chunk_ztxt.Some?
    requires |d.chunk_ihdr.data| == 13 && |Serialize(d, true)| >= 72
    ensures var s := Serialize(d, true);
      ScanMeta(v, FirstBuffer(s), 33, Min(ASSUMED_ZTXT_MAX, |s|), s)
        == if ZtxtReached(v, d) then Ok(Ztxt.ChunkBytes(d.chunk_ztxt.value)) else Err(Io)
  {
    var s := Serialize(d, true);
    var z := d.chunk_ztxt.value;
    var zb := Ztxt.ChunkBytes(z);
    SavedLayout(d, true);
    var rest := PlteBytes(d) + (ChunksBytes(OtherChunks(d)) + (ChunksBytes(d.chunks_idat) + Iend.Bytes(d.chunk_iend)));
    AppendAfter(zb, rest, |zb|);
    assert s[33..33 + |zb|] == s[33..][..|zb|] == zb;
    assert zb[..4] == z.data_length && zb[4..8] == Ztxt.ZTXT_TYPE;
    ScanFindsZtxt(v, FirstBuffer(s), 33, Min(ASSUMED_ZTXT_MAX, |s|), s, zb);
  }

  /** The bytes of a well-formed zTXt chunk load as it. */
  lemma LoadZtxtBytes(z: Ztxt.RawZtxtChunk, crc: Chunk.Crc32)
    requires Ztxt.WellFormedChunk(z, crc)
    ensures LoadZtxt(Ztxt.ChunkBytes(z), crc) == Ok(z)
  {
    Ztxt.LoadAsGeneric(z, crc);
  }

  /** `RawDmi::load_meta` on a saved well-formed file with a zTXt chunk and a
      13-byte IHDR gives its IHDR and zTXt chunks; as written, it fails with
      an I/O error instead on a file whose zTXt chunk its buffering does not
      reach. */
  lemma MetaOfSaved(v: Variant, d: RawDmi, crc: Chunk.Crc32)
    requires WellFormed(d, crc) && d.chunk_ztxt.Some?
    requires |d.chunk_ihdr.data| == 13 && |Serialize(d, true)| >= 72
    ensures DecodeMeta(v, Serialize(d, true), crc)
      == if ZtxtReached(v, d) then Ok(RawDmiMetadata(d.chunk_ihdr, d.chunk_ztxt.value)) else Err(Io)
  {
    IhdrOfSaved(d, true, crc);
    ScanOfSaved(v, d, crc);
    LoadZtxtBytes(d.chunk_ztxt.value, crc);
  }

  /** On such a file `RawDmi::load_meta` and `RawDmi::load` agree on the IHDR
      and zTXt chunks. */
  lemma MetaAgreesWithLoad(v: Variant, d: RawDmi, crc: Chunk.Crc32)
    requires WellFormed(d, crc) && IendCrcHolds(crc) && d.chunk_ztxt.Some? && ZtxtReached(v, d)
    requires |d.chunk_ihdr.data| == 13 && |Serialize(d, true)| >= 72
    ensures DecodeMeta(v, Serialize(d, true), crc).Ok? && Decode(Serialize(d, true), crc).Ok?
    ensures DecodeMeta(v, Serialize(d, true), crc).value.chunk_ihdr == Decode(Serialize(d, true), crc).value.chunk_ihdr
    ensures Some(DecodeMeta(v, Serialize(d, true), crc).value.chunk_ztxt) == Decode(Serialize(d, true), crc).value.chunk_ztxt
  {
    MetaOfSaved(v, d, crc);
    DecodeSerialize(d, true, crc);
  }

  /** `RawDmi::load_meta` fails on a saved file whose chunk after IHDR is an
      IDAT chunk: one saved without zTXt, PLTE or other chunks. */
  lemma MetaWithoutZtxt(v: Variant, d: RawDmi, include_ztxt: bool, crc: Chunk.Crc32)
    requires WellFormed(d, crc) && !(include_ztxt && d.chunk_ztxt.Some?)
    requires d.chunk_plte.None? && d.other_chunks.None?
    requires |d.chunk_ihdr.data| == 13 && |Serialize(d, include_ztxt)| >= 72
    ensures DecodeMeta(v, Serialize(d, include_ztxt), crc) == Err(Generic)
  {
    var s := Serialize(d, include_ztxt);
    IhdrOfSaved(d, include_ztxt, crc);
    SavedLayout(d, include_ztxt);
    var idat := ChunksBytes(d.chunks_idat);
    assert ZtxtBytes(d, include_ztxt) + (PlteBytes(d) + (ChunksBytes(OtherChunks(d)) + (idat + Iend.Bytes(d.chunk_iend)))) == PlteBytes(d) + (ChunksBytes(OtherChunks(d)) + (idat + Iend.Bytes(d.chunk_iend)));
    assert PlteBytes(d) + (ChunksBytes(OtherChunks(d)) + (idat + Iend.Bytes(d.chunk_iend))) == ChunksBytes(OtherChunks(d)) + (idat + Iend.Bytes(d.chunk_iend));
    assert ChunksBytes(OtherChunks(d)) + (idat + Iend.Bytes(d.chunk_iend)) == idat + Iend.Bytes(d.chunk_iend);
    assert s[33..] == idat + Iend.Bytes(d.chunk_iend);
    assert idat[4..8] == Chunk.Bytes(d.chunks_idat[0])[4..8] == IDAT_TYPE;
    assert s[37..41] == s[33..][4..8] == IDAT_TYPE;
    FirstBufferSlice(s, 37, 41);
  }

  /** `RawDmi::load_meta` as written gives what the corrected one gives, or
      fails with an I/O error: the fix changes nothing but those failures. */
  lemma MetaAsWrittenAgrees(source: seq<byte>, crc: Chunk.Crc32)
    ensures DecodeMeta(AsWritten, source, crc) == DecodeMeta(Corrected, source, crc)
            || DecodeMeta(AsWritten, source, crc) == Err(Io)
  {
    var n := Min(ASSUMED_ZTXT_MAX, |source|);
    if n >= 72 {
      ScanReadsFile(AsWritten, FirstBuffer(source), 33, n, source);
      ScanReadsFile(Corrected, FirstBuffer(source), 33, n, source);
    }
  }
}

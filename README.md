# dmi-rust core, modelled in Dafny

This project models the core of `dmi-rust`, a reader and writer for BYOND
DMI sprite sheets. A DMI file is a PNG image. Its sprites are cells of a
fixed size laid out row by row. A zTXt chunk carries the metadata text
between `# BEGIN DMI` and `# END DMI`: a version, the cell size, and one
block per icon state (name, directions, frames, delays, loop count,
hotspot, and unknown settings kept as text).

The model has two layers, and one module per source file.

- **The PNG chunk container.**
  - `Chunk` models `src/dmi/chunk.rs`.
  - `Iend` models `src/dmi/iend.rs`.
  - `Ztxt` models `src/dmi/ztxt.rs`.
  - `RawDmiCodec` models `src/lib.rs`: the chunk walk of `RawDmi::load`, `RawDmi::load_meta` over a growing read buffer, `RawDmi::save` and `output_buffer_size`.
  - Chunks follow the layout of section 5.3 of the PNG Specification (ISO/IEC 15948:2003): a 4-byte big-endian length, a 4-byte type, the data, and a 4-byte CRC.
  - The signature is the one of section 5.2.
  - CRC-32 (section 5.5) is a function parameter `crc`. So is zlib compression (`encode`).
- **The metadata text and the cell grid.**
  - `DmiLine` models `parse_dmi_line`: its quote, escape and used-quote flags, and its error cases.
  - `IconLoad` models `read_dmi_headers`, the state-block loops of `load_internal`, the geometry checks and the crop loop.
  - `IconSave` models the text and sprite layout of `Icon::save`.
  - `DmiIcon` models `dir_to_dmi_index`, `Looping` and `IconState::get_image`.
  - `Pixels` models the grayscale-to-RGBA loops.
  - `Grid` holds the row-major cell arithmetic that load and save share.
  - `SettingLines` and `IconRoundTrip` prove, line by line, that what `Icon::save` writes reads back: the header lines through `read_dmi_headers`, and each setting line of a state through the settings loop of `load_internal`. The escaped state-name line reads back by `DmiLine.ParseEscapedName`. Loading a whole saved text is not stated as one theorem.
  - `LegacyIcon` models the older loader and saver of `src/dmi/icon.rs`. Its rules differ: width and height are mandatory, names are neither escaped nor unescaped, the hotspot is written as `array`, and the sheet is square.
  - `DirFlags` models the direction bits of `src/dirs.rs`.
- **Shared modules.**
  - `Common` holds bytes, `u32` conversions, the error kinds and `Result`, plus the `Writer` class. A `Writer` is a byte sink with limited room; each `Write` stores what fits and reports how much, as `Write::write` on a slice does.
  - `Text` holds the string functions of Rust's standard library that the code relies on: `split_once`, `split`, `split_terminator`, `lines`, integer parsing and formatting, UTF-8 encoding, and the grammar of `f32` literals.

Methods model the imperative code. Each method is proved equal to a
specification function, and the properties are proved about those
functions. Rust panics (a slice out of range, an arithmetic overflow, a
`usize` underflow) are the error `Panic`. Reader failures are `Io`.

Three details of the code that the model keeps:

- An unknown setting is stored under its key with the leading tab (src/icon.rs:386-399), and saving writes another tab in front of that key (src/icon.rs:519-523).
- `RawZtxtChunk::save` compares its length field with the count of data bytes written (src/dmi/ztxt.rs:104-111).
- The IEND length field is checked only when `RawDmi::save` writes the chunk (src/lib.rs:346-352).

## Model

| member | source | states |
|---|---|---|
| DirFlags.CardinalBits | src/dirs.rs:7-10 | North, south, east and west are the single bits 1, 2, 4 and 8. No other value of the type has exactly one of those bits set. |
| DirFlags.OrdinalBits | src/dirs.rs:11-14 | The ordinals are 6, 10, 5 and 9. Southeast is exactly the bits of south and east. No ordinal is a single bit. |
| DirFlags.DirectionLists | src/dirs.rs:25-45 | The cardinal and ordinal lists each hold four distinct values and are disjoint. The list of all directions is exactly their union, eight distinct values. |
| Common.Be32 | src/dmi/ztxt.rs:56 | A big-endian value is below 2^24 exactly when its first byte is zero. |
| Common.ToBe32 | src/dmi/ztxt.rs:28 | The big-endian bytes of `n` read back as `n`. |
| Common.ToBe32OfBe32 | src/dmi/ztxt.rs:28 | Reading four bytes as a big-endian number and writing it back gives the same four bytes. |
| Common.Writer.Write | src/dmi/chunk.rs:81 | A write stores a prefix of its data: all of it if it fits, otherwise exactly as much as there is room for. The room shrinks by the count stored. |
| Common.Writer.constructor | src/lib.rs:284 | A new sink is empty and has the given room. |
| Common.WriteStep | src/dmi/chunk.rs:79-113 | Writing one part and then the rest emits the same bytes as writing the whole. A short write leaves no room. |
| Common.Finished | src/lib.rs:281-355 | A save with nothing left to write has written all of its bytes, and every check passed. |
| Chunk.Bytes | src/dmi/chunk.rs:78-116 | A saved chunk is 12 bytes longer than its data. |
| Chunk.Load | src/dmi/chunk.rs:14-76 | Loading succeeds exactly when there are at least 12 bytes, the type is four ASCII letters, and the stored CRC equals the CRC of type and data. The length field is bytes 0-3, copied without comparing it to the data size. On success the chunk's bytes are the input. Every failure is `Generic`. |
| Chunk.LoadBytes | src/dmi/chunk.rs:14-116 | Saving a chunk with a letter-only type and a correct CRC, then loading the bytes, gives the chunk back. |
| Chunk.Save | src/dmi/chunk.rs:78-116 | The sink receives length, type, data and CRC, as much as fits. The result is `Ok(12 + data length)` exactly when everything fitted, and an error otherwise. |
| Iend.New | src/dmi/iend.rs:16-20 | The new chunk has length 0, type `IEND` and the fixed CRC. Saving and loading it gives it back. |
| Iend.Length | src/dmi/iend.rs:22-24 | The length is 12 whatever the fields, and it is the size of the saved chunk. |
| Iend.Load | src/dmi/iend.rs:26-71 | Loading succeeds exactly on the 12 bytes of the default chunk, and then gives the default chunk. |
| Iend.Save | src/dmi/iend.rs:73-102 | The sink receives length, type and CRC, as much as fits. The result is `Ok(12)` exactly when all 12 bytes fitted. |
| Iend.TryFrom | src/dmi/iend.rs:118-136 | Conversion succeeds exactly when the data is empty, the type is `IEND` and the CRC is the fixed one. The result is the default chunk. |
| Iend.TryFromIgnoresLength | src/dmi/iend.rs:118-136 | The length field is not looked at: a chunk with a nonzero length still converts, and then does not save back to its own bytes. |
| Ztxt.DataBytes | src/dmi/ztxt.rs:250-288 | The saved data field is the keyword, a separator byte, the method byte and the text: two bytes more than keyword and text. |
| Ztxt.ChunkBytes | src/dmi/ztxt.rs:91-129 | A saved zTXt chunk is 12 bytes longer than its data field. |
| Ztxt.DataLength | src/dmi/ztxt.rs:302-304 | `length()` is the size of the saved data field. |
| Ztxt.DataCrc | src/dmi/ztxt.rs:306-314 | `crc()` is the CRC of the zTXt type followed by the saved data field. |
| Ztxt.DefaultData | src/dmi/ztxt.rs:321-330 | The default data (keyword `Description`, method 0, no text) is well formed: no zero byte in the keyword, a zero separator. |
| Ztxt.FirstZero | src/dmi/ztxt.rs:231 | The result is the first zero byte at or after `from`, and there is none when the result is `None`. |
| Ztxt.DecodeData | src/dmi/ztxt.rs:226-248 | Loading succeeds exactly when some zero byte comes before the last byte. The keyword runs to the first zero, the next byte is the method, and the rest is the text. The result is well formed and saves back to the input. |
| Ztxt.DecodeDataBytes | src/dmi/ztxt.rs:226-288 | Loading the saved bytes of well-formed data gives the data back. |
| Ztxt.LoadData | src/dmi/ztxt.rs:226-248 | The iterator steps (`take_while` to the first zero, `next` for the method, `collect` for the rest) compute `DecodeData`. |
| Ztxt.SaveData | src/dmi/ztxt.rs:250-288 | The sink receives keyword, separator, method and text, as much as fits. The result is `Ok(length())` exactly when everything fitted. |
| Ztxt.DecodeChunk | src/dmi/ztxt.rs:40-89 | A loaded chunk came from at least 12 bytes and its length field equals the data size computed as `total_bytes_length as u32 - 12`: the size cut to 32 bits, minus 12. When the cut size is below 12 the subtraction panics. A loaded chunk has the zTXt type, loadable data and a matching CRC, and it saves back to the input. It is well formed when the input is under 2^32 bytes. A type other than zTXt is refused. |
| Ztxt.DecodeChunkBytes | src/dmi/ztxt.rs:40-129 | A well-formed chunk with under 2^32 - 12 data bytes saves to bytes that load back as the same chunk. With more data, loading its bytes panics on the 32-bit subtraction. |
| Ztxt.SavedBytes | src/dmi/ztxt.rs:91-129 | With room enough, the sink receives the whole chunk, or is cut off after the data when the length field claims more bytes than were written. |
| Ztxt.SaveChunk | src/dmi/ztxt.rs:91-129 | The sink receives the bytes of `SavedBytes`, as much as fits. The result is `Ok(12 + data size)` exactly when all fitted and the length field is no more than the data written. |
| Ztxt.SetData | src/dmi/ztxt.rs:131-143 | The chunk carries the data, the zTXt type and the CRC of type and data. For data under 2^32 bytes, the length field is the big-endian size of the saved data and the chunk is well formed. Under 2^32 - 12 bytes it loads back as itself. |
| Ztxt.DefaultChunk | src/dmi/ztxt.rs:146-159 | The default chunk is `set_data` of the default data, and it saves and loads back unchanged. |
| Ztxt.CreateZtxtChunk | src/dmi/ztxt.rs:20-37 | The chunk holds the compressed signature under keyword `Description` with method 0, framed as `set_data` frames it. When its saved data field is under 2^32 - 12 bytes, it loads back as itself. |
| Ztxt.TryFrom | src/dmi/ztxt.rs:161-182 | Conversion succeeds exactly when the type is zTXt and the data loads. Length field and CRC are copied unchecked, and the chunk's bytes are those of the generic chunk. |
| Ztxt.LoadAsGeneric | src/dmi/ztxt.rs:161-182 | A well-formed zTXt chunk's bytes load through the generic codec and convert back to the same chunk. |
| RawDmiCodec.New | src/lib.rs:53-57 | The default file has eight zero bytes as its signature and no zTXt, PLTE, other or IDAT chunks. Whatever is saved from it never loads. |
| RawDmiCodec.Collect | src/lib.rs:110-120 | Filing a chunk keeps every collected chunk under its own type. |
| RawDmiCodec.Walk | src/lib.rs:89-121 | A walk that reaches IEND has filed every chunk under its type, and its IEND chunk is the default one. |
| RawDmiCodec.WalkCollect | src/lib.rs:98-119 | The walk over a chunk other than IEND or zTXt files it and moves on by 12 plus its length. |
| RawDmiCodec.WalkZtxt | src/lib.rs:98-112 | The walk over a zTXt chunk that converts keeps it as the zTXt chunk (the last one wins) and moves on. |
| RawDmiCodec.Decode | src/lib.rs:59-148 | Fewer than 72 bytes, or a wrong signature, is an error. A loaded file has the PNG signature, the default IEND chunk, an IHDR chunk and at least one IDAT chunk, each chunk under its own type. A present list of other chunks is non-empty and holds only chunks of unknown type. |
| RawDmiCodec.Load | src/lib.rs:59-148 | The loop with a mutable index through the buffer computes `Decode`. |
| RawDmiCodec.WriteAt | src/lib.rs:44-46 | Writing through the cursor keeps the bytes before the offset, puts the data after them, and grows the buffer when needed. |
| RawDmiCodec.EnsureBufferedAsWritten | src/lib.rs:33-50 | As written: the call succeeds when the bytes are already buffered, or when the reader still holds `required` more bytes after those read so far. The buffer then holds the file's bytes. |
| RawDmiCodec.EnsureBuffered | src/lib.rs:33-50 | Corrected: the call succeeds exactly when the file holds the `required` bytes after the cursor, and the buffer then holds the file's bytes. |
| RawDmiCodec.EnsureBufferedOverreads | src/lib.rs:40-46 | Where the needed bytes exist but fewer than `required` bytes follow those already read, the code as written fails with `Io` and the corrected version succeeds. |
| RawDmiCodec.EnsureBufferedOverreadsExample | src/lib.rs:40-46 | A concrete 600-byte input on which the code as written fails and the corrected version succeeds. |
| RawDmiCodec.ScanOne | src/lib.rs:184-243 | One turn of the loop, with `ensure_buffered_bytes` as written or corrected. An IDAT or IEND header ends it with an error. A found chunk has the zTXt type. A skipped chunk moves the cursor forward, keeping the next header buffered. |
| RawDmiCodec.ScanMeta | src/lib.rs:184-249 | The loop, as written or corrected, returns only a zTXt chunk. An IDAT or IEND chunk first is an error. |
| RawDmiCodec.Buffer | src/lib.rs:33-50 | `ensure_buffered_bytes` as written or corrected. Both fail only with `Io`, keep the buffer equal to the file, and cover the bytes asked for. The corrected one succeeds exactly when the file holds them. |
| RawDmiCodec.ScanFile | src/lib.rs:184-243 | The loop read straight from the file. A result is a zTXt chunk whose length field matches its data. Any failure is `Generic` (an IDAT or IEND chunk first) or `Io` (a chunk cut short). |
| RawDmiCodec.ScanOneReadsFile | src/lib.rs:185-242 | One turn over a buffer that holds the file ends with what the file holds, or (as written only) `Io`. Otherwise it passes over a chunk the file-level loop passes over too. |
| RawDmiCodec.ScanOneZtxt | src/lib.rs:219-242 | At a zTXt header, the turn returns what the file holds when the buffering reaches the chunk end, and `Io` otherwise. |
| RawDmiCodec.ScanOneOther | src/lib.rs:203-217 | At any other header, the turn passes over the chunk with the buffer still holding the file, or fails with `Io`; the corrected one fails only where the file cuts the chunk short. |
| RawDmiCodec.SkipFile | src/lib.rs:203-217 | Passing over a chunk other than zTXt, IDAT or IEND, the file-level loop goes on at the next header as it would have started there. |
| RawDmiCodec.SkipFileShort | src/lib.rs:203-217 | When the file ends before such a chunk and the next header, the file-level loop fails with `Io`. |
| RawDmiCodec.ScanReadsFile | src/lib.rs:184-243 | Over a buffer that holds the file, the corrected loop computes `ScanFile`, and the loop as written computes the same or fails with `Io`. |
| RawDmiCodec.LoadZtxt | src/lib.rs:238-240 | A zTXt chunk loaded through the generic codec and converted saves back to the bytes found. |
| RawDmiCodec.FirstBuffer | src/lib.rs:152-156 | The first buffer is 500 bytes and starts with the first read of up to 500 bytes of the file. |
| RawDmiCodec.DecodeMeta | src/lib.rs:151-256 | `load_meta` as written or corrected. Fewer than 72 bytes, a wrong signature, or a first chunk header other than the 13-byte IHDR header is an error. A result holds the IHDR chunk at bytes 8-33 and a zTXt chunk. |
| RawDmiCodec.ScanChunk | src/lib.rs:185-242 | One turn of the loop over the cursor computes `ScanOne` for the variant it is given; as written it calls `ensure_buffered_bytes` as the source does. |
| RawDmiCodec.ScanChunks | src/lib.rs:184-243 | The loop over the cursor computes `ScanMeta` for the variant it is given. |
| RawDmiCodec.LoadMeta | src/lib.rs:151-256 | The first read, the checks, the loop and the conversion compute `DecodeMeta`; with `AsWritten` this is `load_meta` exactly as the source has it. |
| RawDmiCodec.ChunksBytesAppend | src/lib.rs:324-344 | Saving two runs of chunks writes the bytes of one after the other. |
| RawDmiCodec.AllFitSplit | src/lib.rs:324-344 | Every chunk of a run passes its length check exactly when the first one does and the rest do. |
| RawDmiCodec.SaveChecked | src/lib.rs:314-322 | One chunk is saved, then its length field is checked against the count written. Success means it fitted and the check passed, and the count is its size. |
| RawDmiCodec.SaveChunks | src/lib.rs:324-344 | The chunks are saved in order, stopping at the first failure. Success means all fitted and passed, and the count is the sum of their sizes. |
| RawDmiCodec.SaveHeaderSection | src/lib.rs:286-292 | Writing the signature goes on with the rest, or stops the save. |
| RawDmiCodec.SaveIhdrSection | src/lib.rs:294-300 | Writing IHDR and checking its length goes on with the rest, or stops the save. |
| RawDmiCodec.SaveZtxtSection | src/lib.rs:302-312 | The zTXt chunk is written only when asked for and present. |
| RawDmiCodec.SavePlteSection | src/lib.rs:314-322 | The PLTE chunk is written when present. |
| RawDmiCodec.SaveOtherSection | src/lib.rs:324-334 | The other chunks are written in order. |
| RawDmiCodec.SaveIdatSection | src/lib.rs:336-344 | The IDAT chunks are written in order. |
| RawDmiCodec.SaveIendSection | src/lib.rs:346-352 | IEND is written last. Its check passes only for a zero length field. |
| RawDmiCodec.SaveImageSections | src/lib.rs:314-355 | PLTE, other chunks, IDAT and IEND are written in that order, each checked. |
| RawDmiCodec.Save | src/lib.rs:281-355 | The sink receives a prefix of the file: signature, IHDR, zTXt (only if asked for and present), PLTE, other chunks, IDATs, IEND. The result is `Ok(file size)` exactly when every length field was honoured and the file fitted. |
| RawDmiCodec.OutputBufferSize | src/lib.rs:258-279 | The computed size plus the IHDR data length is the saved size plus 13. So it is the saved size exactly when IHDR holds 13 data bytes. |
| RawDmiCodec.WellFormedConsistent | src/lib.rs:281-355 | Every check of `save` passes on a well-formed file. |
| RawDmiCodec.CollectIdat | src/lib.rs:114 | IDAT chunks are appended in file order. |
| RawDmiCodec.CollectOther | src/lib.rs:119 | Chunks of unknown type are appended in file order. |
| RawDmiCodec.WalkChunk | src/lib.rs:98-119 | The walk over a saved chunk loads it back and files it. |
| RawDmiCodec.WalkChunks | src/lib.rs:89-121 | The walk over a saved run of chunks files them all in order. |
| RawDmiCodec.WalkZtxtChunk | src/lib.rs:112 | The walk over a saved well-formed zTXt chunk loads it back as the zTXt chunk. |
| RawDmiCodec.WalkIend | src/lib.rs:115-118 | The walk over the default IEND chunk stops there with the default chunk. |
| RawDmiCodec.WalkSavedZtxt | src/lib.rs:302-312 | The walk over the saved zTXt section gives the zTXt chunk if it was written. |
| RawDmiCodec.WalkSavedPlte | src/lib.rs:113 | The walk over the saved PLTE section gives the PLTE chunk if there was one. |
| RawDmiCodec.WalkHead | src/lib.rs:286-322 | The walk over the saved IHDR, zTXt and PLTE chunks files each under its type. |
| RawDmiCodec.WalkTail | src/lib.rs:324-355 | The walk over the saved other, IDAT and IEND chunks files them in order and stops at IEND. |
| RawDmiCodec.DecodeSerialize | src/lib.rs:59-355 | Loading a saved well-formed file gives it back. Its zTXt chunk is missing when it was left out of the save. |
| RawDmiCodec.WalkIgnoresTrailing | src/lib.rs:115-118 | Bytes after the IEND chunk are never looked at. |
| RawDmiCodec.DecodeIgnoresTrailing | src/lib.rs:59-148 | A file that loads loads the same with anything appended. |
| RawDmiCodec.ScanFindsZtxt | src/lib.rs:219-242 | With the buffer holding the file, a zTXt chunk at the cursor is returned whole. As written, the loop fails with `Io` instead exactly when its buffering does not reach the chunk end (`Reaches`). |
| RawDmiCodec.Serialize | src/lib.rs:281-355 | A saved file begins with the signature, holds at least the 24 framing bytes of IHDR plus its data after it, and ends with the 12 bytes of the IEND chunk. |
| RawDmiCodec.SavedLayout | src/lib.rs:281-355 | A saved file is the signature, then IHDR from offset 8, then the zTXt, PLTE, other, IDAT and IEND chunks in that order. |
| RawDmiCodec.IhdrOfSaved | src/lib.rs:173-180 | The IHDR of a saved file with 13 IHDR data bytes passes the IHDR check of `load_meta` and loads as that chunk. |
| RawDmiCodec.ScanOfSaved | src/lib.rs:184-243 | On a saved file with a zTXt chunk, the corrected loop of `load_meta` stops at once with that chunk's bytes. The loop as written does the same when its buffering reaches the chunk end, and fails with `Io` otherwise. |
| RawDmiCodec.LoadZtxtBytes | src/lib.rs:238-240 | A well-formed zTXt chunk's bytes load back as it. |
| RawDmiCodec.MetaOfSaved | src/lib.rs:151-256 | `load_meta` on such a saved file gives its IHDR and zTXt chunks. As written, it does so exactly when its buffering reaches the zTXt chunk end, and fails with `Io` otherwise (for example, zTXt data over 455 bytes with fewer than 459 bytes after the chunk). |
| RawDmiCodec.MetaAgreesWithLoad | src/lib.rs:59-256 | On such a file, `load_meta` and `load` agree on the IHDR and zTXt chunks: always for the corrected version, and for the version as written when its buffering reaches the zTXt chunk end. |
| RawDmiCodec.MetaWithoutZtxt | src/lib.rs:199-249 | `load_meta`, as written or corrected, fails on a file saved without zTXt, PLTE or other chunks, where the chunk after IHDR is an IDAT chunk. |
| RawDmiCodec.MetaAsWrittenAgrees | src/lib.rs:151-256 | On any input, `load_meta` as written gives what the corrected version gives, or fails with `Io`. The fix changes only those I/O failures. |
| Text.FindFrom | src/icon.rs:70 | A found position is at or after the start, and the separator occurs there. |
| Text.FindFromFirst | src/icon.rs:70 | The found occurrence is the first one, and nothing found means none at all. |
| Text.SplitOnce | src/icon.rs:70 | A split puts the line back together as before, separator, after. |
| Text.SplitOnceFirst | src/icon.rs:70-75 | `split_once` splits at the first occurrence, and finds none only when there is none. |
| Text.ParseU32 | src/icon.rs:361 | A parsed value came from a non-empty run of digits after an optional `+`. Every failure is `ParseInt`. |
| Text.ParseU8 | src/icon.rs:360 | A parsed value came from a non-empty run of digits after an optional `+`. Every failure is `ParseInt`. |
| Text.ParseU32Digits | src/icon.rs:361 | Parsing succeeds exactly on a non-empty run of digits, after an optional `+`, whose value is below 2^32, and gives that value. |
| Text.ParseU8Digits | src/icon.rs:360 | Parsing succeeds exactly on a non-empty run of digits, after an optional `+`, whose value is below 256, and gives that value. |
| Text.ParseU32Decimal | src/icon.rs:361 | Formatting a `u32` and parsing it back gives it. |
| Text.ParseU8Decimal | src/icon.rs:360 | Formatting a `u8` and parsing it back gives it. |
| Text.Split | src/dmi/icon.rs:50 | Splitting always gives at least one piece. |
| Text.Lines | src/icon.rs:285 | No line contains a line break, and there are no more lines than characters. |
| Text.LinesOfJoinLines | src/icon.rs:285 | `lines()` of lines written each with a line end gives them back. |
| Text.ParseUnsigned | src/icon.rs:360-372 | A parsed integer is below the type's limit. Every failure is `ParseInt`. |
| Text.Decimal | src/icon.rs:483-486 | Formatting gives a non-empty run of digits. |
| Text.ParseDecimal | src/icon.rs:360-372 | Formatting and then parsing an integer below the limit gives it back. |
| Text.Join | src/icon.rs:496 | A join of at least one part starts with the first part. |
| Text.SplitJoin | src/dmi/icon.rs:193 | Splitting at a one-character separator undoes joining with it when no part contains it. |
| Text.SplitTerminator | src/icon.rs:364 | `split_terminator` gives the pieces of `split` with at most the last one dropped, and only an empty last one. An empty string gives no pieces. |
| Text.SplitTerminatorJoin | src/icon.rs:364 | `split_terminator` also undoes `join` when the last part is not empty. |
| Text.Utf8 | src/icon.rs:86 | A string takes one to four bytes per character, and exactly one per character when it is ASCII. |
| Text.Utf8Char | src/icon.rs:86 | One character takes one to four bytes, exactly one when it is ASCII, and then that byte is its code. |
| Text.Utf8OfAscii | src/icon.rs:86-88 | The bytes of an ASCII string are its characters. |
| Text.Utf8Append | src/icon.rs:86 | Encoding distributes over concatenation. |
| Text.IsF32Literal | src/icon.rs:366 | An `f32` literal is never empty. |
| Text.DigitsAreLiteral | src/icon.rs:366 | A non-empty run of digits is an `f32` literal. |
| DmiLine.Latin1 | src/icon.rs:88 | Each byte becomes the character with that code. |
| DmiLine.SplitAfterKey | src/icon.rs:70 | A key without spaces is split off at the separator that follows it. |
| DmiLine.ParseLineSplits | src/icon.rs:70-76 | A line without ` = ` is refused as a block entry. A parsed line is split at its first ` = `. |
| DmiLine.ParseLineKey | src/icon.rs:70-76 | The key of a parsed line is the text before its first ` = `. |
| DmiLine.ParseLine | src/icon.rs:65-131 | A line without ` = ` is refused with `BlockEntry`. A parsed line's key is the text before its first ` = `. With quotes required, a value of fewer than two bytes panics (the capacity `num_chars - 2` underflows). Every failure is `BlockEntry`, `Generic` or `Panic`. |
| DmiLine.ParseDmiLine | src/icon.rs:65-131 | The loop over the value bytes, with its three flags, computes `ParseLine`. |
| DmiLine.FirstNeedingQuotes | src/icon.rs:91-122 | The result is the first byte at or after `k` that needs quotes, and there is none when the result is `None`. |
| DmiLine.ParseUnquoted | src/icon.rs:79-130 | A value that does not open with a quote is taken byte for byte. It is refused at the first backslash, tab, `=`, space, or quote where quotes are not allowed. With quotes allowed and required, a value without quotes fails with `Generic`. |
| DmiLine.ParsePlain | src/icon.rs:65-131 | An ASCII value free of the bytes that need quotes reads back as itself. |
| DmiLine.Unescape | src/icon.rs:92-117 | Every failure inside quotes is a block-entry error. |
| DmiLine.ParseQuoted | src/icon.rs:92-130 | A value that opens with a quote, where quotes are allowed, reads as the unescaped rest, and fails exactly when unescaping fails. |
| DmiLine.Escape | src/icon.rs:484 | Escaping never shortens a name and adds only backslashes and quotes. A name with neither comes out unchanged. |
| DmiLine.ReplaceChar | src/icon.rs:484 | Replacing a character absent from a string leaves it unchanged. |
| DmiLine.EscapeCons | src/icon.rs:484 | The two replacements act character by character. |
| DmiLine.UnescapeOne | src/icon.rs:92-117 | Unescaping the escape of one ASCII character ahead of an unescapable rest gives that character followed by the rest's result. |
| DmiLine.UnescapeEscape | src/icon.rs:92-117 | Unescaping an escaped ASCII name followed by the closing quote gives the name back. The escape is the one `Icon::save` writes at src/icon.rs:484. |
| DmiLine.ParseEscapedName | src/icon.rs:65-131 | A state line saved with an escaped ASCII name parses, with quotes allowed and required, to the key and the name. The name is escaped as at src/icon.rs:484. |
| Grid.CeilSqrt | src/icon.rs:531 | The result is the least `r` with `n <= r * r`. |
| Grid.CeilDiv | src/icon.rs:534 | The result is the least `q` with `n <= q * d`. |
| Grid.SheetSize | src/icon.rs:530-534 | The sheet has room for every sprite and no more rows than columns. Its last row is used. It is empty exactly when there are no sprites. |
| Grid.SquareSize | src/dmi/icon.rs:339 | The square sheet has room for every sprite, and is the smallest that does. |
| Grid.CellsTile | src/icon.rs:427-437 | Each cell of the sheet lies inside it, and two different cells do not overlap. |
| Grid.SavedSheetReadsBack | src/icon.rs:530-547 | A sheet saved from `n` sprites passes load's geometry checks and has a cell for each sprite. Load reads cell `i` where save drew sprite `i`: load and save flatten the same way. The load side is src/icon.rs:300-306 and 427-429. |
| Grid.SquareSheetReadsBack | src/dmi/icon.rs:339-352 | The same holds for the square sheet of the older save. The load side is src/dmi/icon.rs:109-115 and 249-251. |
| Grid.Rows | src/icon.rs:433-437 | The cut holds `h` rows of `row_len` bytes. |
| Grid.RowsAt | src/icon.rs:433-437 | Byte `c` of row `r` of the cut is the byte at that column of row `y + r` of the buffer. |
| Grid.Tile | src/icon.rs:427-437 | A tile holds `width * height * 4` bytes. |
| Grid.TilePixel | src/icon.rs:427-437 | Pixel (c, r) of the tile is pixel (x + c, y + r) of the image, all four channels. |
| Grid.CropCell | src/icon.rs:431-437 | The row loop builds exactly the tile. |
| Grid.CellInside | src/icon.rs:427-429 | Each cell of an image made of whole cells lies inside it. |
| Grid.CellTile | src/icon.rs:427-437 | A cut-out cell holds `w * h * 4` bytes. |
| Pixels.ExpandGrayAlpha | src/icon.rs:229-245 | On `u32` overflow of the size it panics. On a length mismatch it fails. Otherwise every (gray, alpha) pair becomes (gray, gray, gray, alpha). |
| Pixels.ExpandGray | src/icon.rs:246-260 | On `u32` overflow it panics. On a length mismatch it fails. Otherwise every gray byte becomes (gray, gray, gray, 255). |
| Pixels.ToRgba | src/icon.rs:228-268 | RGBA is kept. RGB and indexed images are refused. Gray buffers grow two- or fourfold. |
| Pixels.GrayAlphaChannels | src/icon.rs:236-243 | Channel 0 and channel 3 of each expanded pixel give back the source gray value and alpha. |
| DmiIcon.Position | src/icon.rs:32 | The result is the first position of the value, and `None` exactly when the value is absent. |
| DmiIcon.DirToDmiIndex | src/icon.rs:33-45 | The result is the direction's place in `DIR_ORDERING`, and `None` exactly for values not in it. |
| DmiIcon.DirToDmiIndexIsPosition | src/icon.rs:21-45 | The table is `DIR_ORDERING.iter().position`: entry `i` maps to `i`, and every other value maps to `None`. |
| DmiIcon.DirIndexOfOrdering | src/icon.rs:21-45 | For each `i` below 8, `dir_to_dmi_index(DIR_ORDERING[i])` is `i`. |
| DmiIcon.DirValues | src/icon.rs:21-30 | The direction constants have their bit values. `DIR_ORDERING` is 2, 1, 4, 8, 6, 10, 5, 9. The cardinal list is 1, 2, 4, 8, and the list of all directions is 1, 2, 4, 8, 5, 9, 6, 10. |
| DmiIcon.DirOrderingLists | src/icon.rs:21-30 | `DIR_ORDERING` lists every direction once, the four cardinals first. |
| DmiIcon.NewLooping | src/icon.rs:588-593 | Zero means looping indefinitely. Any other count is kept. |
| DmiIcon.Unwrap | src/icon.rs:598-603 | `unwrap` panics exactly on `Indefinitely`, and otherwise gives back a nonzero count. |
| DmiIcon.UnwrapOrDefault | src/icon.rs:607-612 | The result is 0 exactly for `Indefinitely`. |
| DmiIcon.UnwrapOr | src/icon.rs:616-621 | The default is used exactly for `Indefinitely`. |
| DmiIcon.ToOption | src/icon.rs:624-631 | `None` exactly for `Indefinitely`, otherwise the count. |
| DmiIcon.ToNonZero | src/icon.rs:633-640 | `None` exactly for `Indefinitely`, otherwise the nonzero count. |
| DmiIcon.LoopingBijection | src/icon.rs:588-612 | `new` and `unwrap_or_default` are inverse to each other, so a `loop` line keeps its count. |
| DmiIcon.ImageIndex | src/icon.rs:690 | Corrected frame-major index: for a direction position below `dirs`, the image of frame `frame` lies in that frame's run of `dirs` images. |
| DmiIcon.GetImageAsWritten | src/icon.rs:671-706 | As written: a found image is one of the state's images. The only error other than `IconState` is the panic on frame 0. |
| DmiIcon.GetImage | src/icon.rs:671-706 | Corrected: an image is found exactly for frames 1 to `frames` and an allowed direction whose frame-major index is in range. Every failure is `IconState`. |
| DmiIcon.AllowedDirs | src/icon.rs:679-681 | For 1, 4 or 8 directions, the allowed ones are exactly the first `dirs` entries of `DIR_ORDERING`. |
| DmiIcon.GetImageTotal | src/icon.rs:671-706 | In a state whose image count matches its settings, every allowed (direction, frame) pair finds an image. |
| DmiIcon.GetImageInjective | src/icon.rs:671-706 | Different pairs find different images. |
| DmiIcon.GetImageSurjective | src/icon.rs:671-706 | Every image is found by some pair. |
| DmiIcon.GetImageAsWrittenCollides | src/icon.rs:690 | With four directions and two frames, the code as written gives south in frame 2 the same image as north in frame 1. The corrected index gives them different images. |
| IconLoad.VersionHeader | src/icon.rs:136-157 | The first line must be `# BEGIN DMI`. The second must parse with key `version`, and its value is the version. |
| IconLoad.SizeLinesAsWritten | src/icon.rs:161-184 | As written: the loop consumes at most the lines it has left. |
| IconLoad.HeadersAsWritten | src/icon.rs:133-197 | As written: the version is that of `VersionHeader`, the header ends two to four lines in, and a zero width or height is refused. |
| IconLoad.SizeLineSplit | src/icon.rs:170-179 | A line that starts with a size key and the separator splits after that key. |
| IconLoad.SizeLineKey | src/icon.rs:170-183 | A parsed line is a size line exactly when its key is `\twidth` or `\theight`. |
| IconLoad.SizeLines | src/icon.rs:161-184 | Corrected: the loop consumes at most the lines it has left. |
| IconLoad.SizeLinesStep | src/icon.rs:170-179 | A size line sets its size and moves on. |
| IconLoad.SizeLineParses | src/icon.rs:170-179 | A size line the reader gets past parses, and its value is a `u32`. |
| IconLoad.Headers | src/icon.rs:133-197 | Corrected: the version is that of `VersionHeader`, at most two size lines follow, and a zero width or height is refused. |
| IconLoad.HeadersOf | src/icon.rs:133-197 | `read_dmi_headers` as written or corrected: either gives the `version` line's value and ends two to four lines in, with no zero size. |
| IconLoad.SizeLinesOf | src/icon.rs:161-184 | The size-line loop as written or corrected ends at most `left` lines on. |
| IconLoad.SizeLinesFirst | src/icon.rs:161-184 | The reader gets past a line only if it is a size line. It stops at a line only if that line is not a size line, or no size line is left to read. |
| IconLoad.HeadersConsume | src/icon.rs:161-184 | The line after the header is not a size line unless both size lines were read. |
| IconLoad.ReadSizeLine | src/icon.rs:162-183 | One pass of the loop, as written (parse the peeked line, then look at its key) or corrected (look at the line first). It computes one step of `SizeLinesAsWritten` or `SizeLines`. |
| IconLoad.ReadSizeLines | src/icon.rs:161-184 | The loop computes `SizeLinesAsWritten` or `SizeLines`, for the variant it is given. |
| IconLoad.ReadDmiHeaders | src/icon.rs:133-197 | The method computes `HeadersAsWritten` or `Headers`, for the variant it is given. With `AsWritten` this is `read_dmi_headers` exactly as the source has it. |
| IconLoad.HeadersExtendAsWritten | src/icon.rs:133-197 | Where the code as written succeeds, the corrected reader gives the same result. |
| IconLoad.SizeLinesAsWrittenStep | src/icon.rs:170-179 | As written, a size line sets its size and moves on. |
| IconLoad.SizeValueParses | src/icon.rs:172-178 | A size value the code as written gets past is a number. |
| IconLoad.SizeLinesExtend | src/icon.rs:161-184 | Where the size loop as written succeeds, the corrected loop agrees. |
| IconLoad.NoEqualsRefused | src/icon.rs:70-75 | A line without `=` is refused as a block entry. |
| IconLoad.EndLineRefused | src/icon.rs:70-75 | `# END DMI` is refused as a block entry. |
| IconLoad.StateLineRefused | src/icon.rs:103-106 | A state line parsed with quotes refused fails. |
| IconLoad.AsWrittenRefusesPeeked | src/icon.rs:162-170 | As written, a third line that does not parse without quotes makes the header fail. |
| IconLoad.NoTabNoSizeLine | src/icon.rs:171-182 | A line that does not start with a tab is not a size line. |
| IconLoad.HeadersWithoutSizes | src/icon.rs:180-182 | Corrected: a third line that is not a size line ends the header with no sizes. |
| IconLoad.HeadersAsWrittenNeedWidth | src/icon.rs:162-170 | As written, a header without size lines followed by a state line or `# END DMI` fails. The corrected reader accepts it. |
| IconLoad.AddUnknown | src/icon.rs:386-399 | An unknown setting is stored under its raw key, and every other stored setting stays. |
| IconLoad.Delays | src/icon.rs:362-369 | Each delay is a non-empty `f32` literal. Any failure is `ParseFloat`. An empty value gives no delays. |
| IconLoad.ApplySetting | src/icon.rs:359-401 | Only a known key can fail, with `ParseInt`, `ParseFloat` or `Generic` (a hotspot without three parts). A known key leaves the unknown settings alone. An unknown key changes nothing else and stores the line's own key and value, split at its first ` = `, in the unknown settings. |
| IconLoad.ReadSettings | src/icon.rs:344-402 | The settings end at a later line that ends the block. Running out of lines is an error. |
| IconLoad.ReadSettingsStep | src/icon.rs:344-402 | A setting line that does not end the block is applied, and reading goes on. |
| IconLoad.ReadSettingsFirstEnd | src/icon.rs:354-356 | The line that ends a block is the first such line after its start. |
| IconLoad.ReadSettingsNext | src/icon.rs:344-402 | A block that ends after the next line applied that line. |
| IconLoad.CellImagesSnoc | src/icon.rs:427-443 | One more cell appends its tile. |
| IconLoad.Then | src/icon.rs:448 | A finished state goes in front of the states read after it, and errors pass through. |
| IconLoad.LaidOutCons | src/icon.rs:412-446 | A state cut from its own run of cells, before states laid out from the next cell on, keeps the sheet laid out. |
| IconLoad.BlockState | src/icon.rs:404-459 | `dirs` and `frames` must be present, the state's cells must fit a `u32` and the sheet, and its images are its run of cells. |
| IconLoad.ReadStates | src/icon.rs:319-460 | Loaded states use no more cells than the sheet has, counting from `index`. Success means a later line is `# END DMI`. A failure never happens at a line that is `# END DMI`. |
| IconLoad.ReadBlock | src/icon.rs:326-459 | A block is a quoted `state` line, settings, and the checks. Its name is the parsed state value, and its images are its run of cells. |
| IconLoad.ReadStatesStep | src/icon.rs:321-460 | Reading past one block puts its state in front of the rest. |
| IconLoad.ReadStatesLaidOut | src/icon.rs:412-446 | The loaded states take consecutive runs of cells, each cut from its own run. |
| IconLoad.OrDefault | src/icon.rs:290-292 | A size that is not zero gives a nonzero cell size: a missing size reads as 32. |
| IconLoad.CheckGeometry | src/icon.rs:294-306 | Succeeds exactly when the IHDR holds the size and the image is a nonzero whole number of cells that fits a `u32` count. |
| IconLoad.LoadedIconLaidOut | src/icon.rs:284-468 | An icon loaded by either variant has the header's size (32 where a line is missing), a valid sheet, and states laid out from cell 0. |
| IconLoad.LoadTextAsWrittenAgrees | src/icon.rs:284-468 | Wherever `load_internal` as written loads an icon, the corrected version loads the same icon. |
| IconLoad.ReadDelays | src/icon.rs:362-369 | The loop parses each token as an `f32`. A failure is `ParseFloat`. |
| IconLoad.ReadSetting | src/icon.rs:359-401 | The match on the key computes `ApplySetting`. |
| IconLoad.CropCells | src/icon.rs:417-443 | The crop loop panics when the `u32` capacity overflows. Otherwise it gives the tiles of cells `index` to `next_index`. |
| IconLoad.ReadSettingLine | src/icon.rs:345-401 | One turn of the inner loop computes one step of `ReadSettings`. |
| IconLoad.ReadSettingLines | src/icon.rs:344-402 | The inner loop computes `ReadSettings`. |
| IconLoad.ReadStateBlock | src/icon.rs:326-459 | The loop body computes `ReadBlock`. |
| IconLoad.CloseBlock | src/icon.rs:404-444 | The checks and the crop loop compute `BlockState`. |
| IconLoad.ThenAppend | src/icon.rs:448 | Pushing states one by one builds the same list. |
| IconLoad.ReadStateBlocks | src/icon.rs:321-460 | The outer loop computes `ReadStates`. |
| IconLoad.LoadText | src/icon.rs:285-468 | A loaded icon's text has at least three lines, begins with `# BEGIN DMI` and holds `# END DMI`. The IHDR data has at least 8 bytes, width and height are nonzero, the sheet is a valid grid of those cells, and the states use no more cells than it has. |
| IconLoad.LoadTextSameHeaders | src/icon.rs:285-468 | When both header readers give the same headers, loading as written and corrected gives the same result. |
| IconLoad.LoadInternal | src/icon.rs:284-468 | The method computes `LoadText` for the variant it is given. With `AsWritten` the header is read as the source reads it. |
| SettingLines.ApplyLinesAppend | src/icon.rs:344-402 | Applying two runs of lines is applying one after the other. |
| SettingLines.ReadSettingsLocal | src/icon.rs:344-402 | The settings loop reads only the lines after its start. |
| SettingLines.ReadRunAppend | src/icon.rs:344-402 | A run of setting lines that apply cleanly, none ending the block, is read through. |
| SettingLines.ReadRunCons | src/icon.rs:344-402 | One setting line before the rest of the block is applied first. |
| SettingLines.RunFirst | src/icon.rs:344-402 | The first line of a cleanly applying run applies, and the rest apply after it. |
| IconRoundTrip.ParsePlainValue | src/icon.rs:357 | A plain value on a setting line reads back as itself. |
| IconRoundTrip.EscapeKeepsLines | src/icon.rs:484 | Escaping adds no line break. |
| IconRoundTrip.IndentedLine | src/icon.rs:354 | A tab-indented line does not end a block. |
| IconRoundTrip.DirsLine | src/icon.rs:360 | The saved `dirs` line reads back as the count. The line is written at src/icon.rs:483-486. |
| IconRoundTrip.FramesLine | src/icon.rs:361 | The saved `frames` line reads back as the count. The line is written at src/icon.rs:483-486. |
| IconRoundTrip.DelayLine | src/icon.rs:362-369 | A saved `delay` line reads back as its tokens, for non-empty tokens that hold no comma. The line is written at src/icon.rs:495-496. |
| IconRoundTrip.LoopLine | src/icon.rs:370 | A saved `loop` line reads back as the same `NTimes` count. The line is written at src/icon.rs:500-502. |
| IconRoundTrip.RewindLine | src/icon.rs:371 | The saved `rewind` line sets the flag. The line is written at src/icon.rs:503-505. |
| IconRoundTrip.MovementLine | src/icon.rs:372 | The saved `movement` line sets the flag. The line is written at src/icon.rs:506-508. |
| IconRoundTrip.HotspotLine | src/icon.rs:373-385 | The saved `hotspot` line reads back both coordinates. The line is written at src/icon.rs:511-517. |
| IconRoundTrip.HotspotValueParts | src/icon.rs:515 | The hotspot value is its three numbers joined by commas, and none of them holds a comma. |
| IconRoundTrip.UnknownSettingLine | src/icon.rs:386-399 | An unknown setting reads back under its key with one more leading tab. The line is written at src/icon.rs:519-523. |
| IconRoundTrip.SizeLineReads | src/icon.rs:161-176 | A saved `width` or `height` line is a size line to the header reader and parses as its key and number, and the number parses back as the saved value. The line is written at src/icon.rs:472-475. |
| IconRoundTrip.SizeLinesParse | src/icon.rs:161-176 | The saved `width` and `height` lines, third and fourth of the text, are both size lines, parse as their keys and numbers, and the numbers parse back as the saved width and height. |
| IconRoundTrip.SizeLinesReadBack | src/icon.rs:161-184 | The saved width and height lines read back as the cell size through either version of the size loop, and the reader stops after them. |
| IconRoundTrip.HeaderLinesReadBack | src/icon.rs:133-197 | For a plain version and nonzero sizes, the four header lines `Icon::save` writes (src/icon.rs:472-475) read back, through either version of `read_dmi_headers`, as that version and both sizes, with the lines after them left unread. |
| IconRoundTrip.IndentedNotEnd | src/icon.rs:354 | A line that starts with a tab never ends a block. |
| IconRoundTrip.ApplyLinesFirst | src/icon.rs:357-401 | The first line of a cleanly applying run parses and applies. |
| IconSave.NameLine | src/icon.rs:482-486 | A name without a line break gives a state line without one, so the line stays one line of the text. |
| IconSave.NameLineReadsBack | src/icon.rs:482-486 | The saved state line of an ASCII name parses, with quotes allowed and required, as key `state` and the name itself. |
| IconSave.AnimationLines | src/icon.rs:489-509 | Animation lines succeed exactly when delays are present and as many as the frames, counted as a `u32`. They open with the `delay` line. Every failure is `Generic`. |
| IconSave.UnknownLines | src/icon.rs:519-523 | One line per unknown key, in the given order. |
| IconSave.StateLines | src/icon.rs:477-523 | A block fails exactly when the `u32` product `dirs * frames` overflows (a panic), or the image count as a `u32` differs from it, or an animated state lacks matching delays. |
| IconSave.SheetFor | src/icon.rs:530-536 | The sheet has the columns and rows of `SheetSize` in cells. Its pixel size overflowing a `u32` panics. |
| IconSave.DefaultStateNotSaveable | src/icon.rs:709-724 | The default state promises one image and holds none, so an icon holding it cannot be saved. The count check is at src/icon.rs:478. |
| IconSave.StatesLines | src/icon.rs:477-526 | No states give no lines. Each saved state gives at least three lines (name, dirs, frames). |
| IconSave.StatesLinesFail | src/icon.rs:477-480 | One state that cannot be saved fails the whole save. |
| IconSave.StatesLinesOk | src/icon.rs:477-526 | States that can each be saved are saved together. |
| IconSave.SavedStatesCells | src/icon.rs:478-480 | Every state of a saved icon holds `dirs * frames` images, counted as a `u32`. |
| IconSave.SpritesFillCells | src/icon.rs:525 | With fewer than 2^32 sprites, the counts are exact and the sprites fill as many cells as the states take. |
| IconSave.SheetHoldsSprites | src/icon.rs:530-547 | The sheet has a cell for every sprite. Each sprite is drawn inside it, and no two overlap. |
| IconSave.WriteUnknown | src/icon.rs:519-523 | The loop pushes the unknown settings in the given order. |
| IconSave.Push | src/icon.rs:482 | Pushing a line appends it and a line end to the text. |
| IconSave.PushFlag | src/icon.rs:503-508 | A flag's line is pushed exactly when the flag is set. |
| IconSave.WriteAnimation | src/icon.rs:489-509 | The method pushes the animation lines, or fails as `AnimationLines` does. |
| IconSave.WriteState | src/icon.rs:478-523 | One pass of the loop computes the text of `StateLines`. |
| IconSave.WriteSettings | src/icon.rs:511-523 | After the lines written so far come the hotspot line, when there is a hotspot, and then one line per unknown setting in key order. |
| IconSave.StateLinesParts | src/icon.rs:482-523 | A block is the name, dirs and frames lines, then animation, hotspot and unknown lines. |
| IconSave.StatesLinesNext | src/icon.rs:477-526 | Saving one more state appends its block and its images. |
| IconSave.StatesLinesStop | src/icon.rs:478-499 | A state that cannot be saved ends the save with its error. |
| IconSave.StatesLinesErrKept | src/icon.rs:477-526 | An error in the first states is the error of all of them. |
| IconSave.WriteStates | src/icon.rs:477-526 | The loop computes the text of every block and collects the sprites in state-then-image order. |
| IconSave.SaveIcon | src/icon.rs:470-547 | A save succeeds only when every state's lines do. The sprites are the states' images in order, and the sheet has `SheetSize` columns for them. With the text saved, the only failure is the `u32` overflow of the sheet size, a panic. |
| IconSave.Save | src/icon.rs:470-547 | The method computes `SaveIcon`. Sprite `i` is drawn at `(w * (i % cols), h * (i / cols))`. |
| IconSave.PlaceSprites | src/icon.rs:538-547 | The drawing loop places sprite `i` at `(w * (i % cols), h * (i / cols))`. |
| LegacyIcon.HeaderField | src/dmi/icon.rs:59-73 | A header line must be present and split into exactly two fields, the first of them the key. |
| LegacyIcon.ReadHeader | src/dmi/icon.rs:34-98 | The header is `# BEGIN DMI`, then `version`, `\twidth` and `\theight` lines in that order. The sizes are `u32` values, and zero is refused. |
| LegacyIcon.StateName | src/dmi/icon.rs:143-156 | A name is accepted exactly when the value is at least two bytes and starts and ends with a quote. The quotes are stripped and nothing is unescaped. |
| LegacyIcon.ApplySetting | src/dmi/icon.rs:188-228 | A key the loader does not know is stored as an unknown setting, with its leading tab. |
| LegacyIcon.ReadSettings | src/dmi/icon.rs:167-230 | The settings end at a later line that ends the block. Running out of lines is an error. |
| LegacyIcon.ReadSettingsStep | src/dmi/icon.rs:167-230 | A two-field line that applies is read past. |
| LegacyIcon.ReadSettingsFirstEnd | src/dmi/icon.rs:177-179 | The line that ends a block is the first such line after its start. |
| LegacyIcon.ReadSettingsNext | src/dmi/icon.rs:167-230 | A block that ends after the next line applied that line. |
| LegacyIcon.CheckSheet | src/dmi/icon.rs:109-115 | Succeeds exactly when the image is a nonzero whole number of cells whose count fits a `u32`. |
| LegacyIcon.Columns | src/dmi/icon.rs:113 | A valid sheet has at least one column. |
| LegacyIcon.Cell | src/dmi/icon.rs:249-252 | Cell `i` is cropped at the row-major origin of `i`. |
| LegacyIcon.Cells | src/dmi/icon.rs:247-255 | Cells `from` to `to` in order. |
| LegacyIcon.CloseBlock | src/dmi/icon.rs:232-255 | `dirs` and `frames` are required. The block's cells end at `index + dirs * frames`, which must fit the sheet, and they are its images. |
| LegacyIcon.ReadBlock | src/dmi/icon.rs:135-268 | A block is a two-field `state` line with a quoted name, then settings and the checks. Its images are the next cells. |
| LegacyIcon.Then | src/dmi/icon.rs:257 | A finished state goes in front of the states read after it. |
| LegacyIcon.ReadStates | src/dmi/icon.rs:130-269 | A line containing `# END DMI` ends the states with none more. Success means some line from the start on contains `# END DMI`. |
| LegacyIcon.ReadStatesStep | src/dmi/icon.rs:130-269 | Reading past one block puts its state in front of the rest. |
| LegacyIcon.AnimationLines | src/dmi/icon.rs:296-316 | Animation lines succeed exactly when delays are present and as many as the frames. Every failure is `Generic`. |
| LegacyIcon.StateLines | src/dmi/icon.rs:286-333 | A block fails exactly on `u32` overflow of `dirs * frames` (a panic), a wrong image count, or missing or mismatched delays. It opens with the verbatim name line. |
| LegacyIcon.SquareSheet | src/dmi/icon.rs:339-341 | The square side is `SquareSize`. A pixel size overflowing a `u32` panics. |
| LegacyIcon.CellsSnoc | src/dmi/icon.rs:247-255 | One more cell appends its region. |
| LegacyIcon.CropImages | src/dmi/icon.rs:245-255 | The crop loops, frames outer and directions inner, take the next `dirs * frames` cells in order. |
| LegacyIcon.ReadSettingLine | src/dmi/icon.rs:167-230 | One turn of the inner loop computes one step of `ReadSettings`. |
| LegacyIcon.ReadSettingLines | src/dmi/icon.rs:167-230 | The inner loop computes `ReadSettings`. |
| LegacyIcon.CloseStateBlock | src/dmi/icon.rs:232-268 | The checks and crop loops compute `CloseBlock`. |
| LegacyIcon.ReadStateBlock | src/dmi/icon.rs:131-268 | The loop body computes `ReadBlock`. |
| LegacyIcon.ThenAppend | src/dmi/icon.rs:257 | Pushing states one by one builds the same list. |
| LegacyIcon.ReadStateBlocks | src/dmi/icon.rs:130-269 | The outer loop computes `ReadStates`. |
| LegacyIcon.Load | src/dmi/icon.rs:20-277 | A loaded icon's text has more than four lines and a header that reads. The icon takes its version, width and height from that header. |
| LegacyIcon.LoadIcon | src/dmi/icon.rs:32-277 | The method computes `Load`. |
| LegacyIcon.PushNumber | src/dmi/icon.rs:307-315 | An optional number's line is pushed exactly when the number is present. |
| LegacyIcon.WriteAnimation | src/dmi/icon.rs:296-316 | The method pushes the animation lines, or fails as `AnimationLines` does. |
| LegacyIcon.WriteState | src/dmi/icon.rs:287-332 | One pass of the loop computes the text of `StateLines`. |
| LegacyIcon.StateLinesParts | src/dmi/icon.rs:291-332 | A block is the name, dirs and frames lines, then animation, `array` and unknown lines. |
| LegacyIcon.StatesLinesNext | src/dmi/icon.rs:286-335 | Saving one more state appends its block and its images. |
| LegacyIcon.StatesLinesStop | src/dmi/icon.rs:287-305 | A state that cannot be saved ends the save with its error. |
| LegacyIcon.StatesLinesErrKept | src/dmi/icon.rs:286-335 | An error in the first states is the error of all of them. |
| LegacyIcon.WriteStates | src/dmi/icon.rs:286-335 | The loop computes the text of every block and collects the sprites in order. |
| LegacyIcon.SaveIcon | src/dmi/icon.rs:279-352 | A save succeeds only when every state's lines do. The sprites are the states' images in order on a square sheet of side `ceil(sqrt(n))`. With the text saved, the only failure is the `u32` overflow of the sheet size, a panic. |
| LegacyIcon.Save | src/dmi/icon.rs:279-352 | The method computes `SaveIcon` on the square sheet. Sprite `i` is drawn at `(w * (i % m), h * (i / m))`. |
| LegacyIcon.PlaceSprites | src/dmi/icon.rs:343-352 | The drawing loop places sprite `i` at `(w * (i % m), h * (i / m))`. |
| LegacyIcon.FieldsOfLine | src/dmi/icon.rs:180 | A key without spaces, the separator and a non-empty separator-free value split into exactly those two fields. |
| LegacyIcon.HeaderReadsBack | src/dmi/icon.rs:34-98 | The header the older save writes reads back, for a non-empty separator-free version and nonzero sizes. The header is written at src/dmi/icon.rs:281-284. |
| LegacyIcon.NameReadsBack | src/dmi/icon.rs:143-156 | A name without a separator is written verbatim in quotes and read back as itself. The line is written at src/dmi/icon.rs:291-294. |
| LegacyIcon.BlockNameReadsBack | src/dmi/icon.rs:135-156 | A state read from the saved name line has that name. |
| LegacyIcon.NameWithSeparatorRefused | src/dmi/icon.rs:135-141 | A name holding ` = ` is written verbatim too. Its line then has three fields, and the older load refuses the block. The line is written at src/dmi/icon.rs:291-294. |
| LegacyIcon.NumberLinesReadBack | src/dmi/icon.rs:190-201 | The saved `frames`, `loop`, `rewind` and `movement` lines read back as their numbers. The lines are written at src/dmi/icon.rs:292-315. |
| LegacyIcon.DirsLineReadsBack | src/dmi/icon.rs:189 | The saved `dirs` line reads back as the count. |
| LegacyIcon.HotspotNotPreserved | src/dmi/icon.rs:318-323 | The hotspot is saved under `array`, which the older load keeps as an unknown setting. The hotspot read is left as it was. |
| LegacyIcon.StillStateDropsAnimation | src/dmi/icon.rs:296-316 | A still state's block does not depend on its delay, loop, rewind or movement, so those are lost on save. |
| LegacyIcon.DefaultStateNotSaveable | src/dmi/icon.rs:380-395 | The default state promises one image and holds none, so an icon holding it cannot be saved. The count check is at src/dmi/icon.rs:287-289. |
| LegacyIcon.StatesLinesFirstErr | src/dmi/icon.rs:286-335 | One state that cannot be saved fails the whole save. |
| LegacyIcon.SquareSheetCells | src/dmi/icon.rs:339-352 | The square sheet passes the older load's checks and has a cell for every sprite. Cell `i` is where sprite `i` was drawn. The load side is src/dmi/icon.rs:109-115 and 249-251. |
| LegacyIcon.LaidOutCons | src/dmi/icon.rs:241-255 | A state on its own run of cells, before states laid out from the next cell on, keeps the sheet laid out. |
| LegacyIcon.ReadBlockCells | src/dmi/icon.rs:241-255 | The cells of a block are the next `dirs * frames` after `index`. |
| LegacyIcon.ReadStatesLaidOut | src/dmi/icon.rs:130-269 | The loaded states take consecutive runs of cells. |
| LegacyIcon.LoadLaidOut | src/dmi/icon.rs:32-277 | A loaded icon has nonzero sizes, and its states take consecutive runs of cells from cell 0, frames outer and directions inner. |

## Left out

- PNG pixel decoding and encoding (`png::Decoder`, `PngEncoder`, `write_with_encoder`, `load_from_memory_with_format`), `crop_imm` and `imageops::replace` are calls into the `png` and `image` crates.
  - Loading starts from the decoded RGBA buffer, or from the image size for the older loader.
  - Saving stops at the sheet size and the position of every sprite.
  - The re-load of the encoded PNG and the zTXt swap at the end of both saves are not part of this model.
- The zTXt decompression at the start of `load_internal` and of the older `Icon::load` is not part of this model; both take the decompressed text. zlib compression is the parameter `encode`.
- CRC-32 (`src/crc.rs`) is the parameter `crc`. The round-trip lemmas assume it maps `IEND` to the fixed IEND CRC.
- `f32` delays are kept as their text tokens. Parsing accepts exactly the tokens that match Rust's `f32` literal grammar. Formatting and rounding of floats are not modelled: a delay saves as its token.
- The `f64` square root of the sheet size is an exact integer ceiling square root and ceiling division. Rounding of `f64` for sprite counts above 2^53 is not modelled.
- `HashMap` iteration order of unknown settings is a parameter: the key order of each state (`orders`), which claims no order.
- UTF-8 validation (`String::from_utf8`) and the panic at src/icon.rs:424 are not modelled: text is a string and the RGBA buffer size matches the image.
- Readers and writers are byte sequences and the `Writer` class. `Read::read` in `load_meta` reads `min(500, len)` bytes, as a slice reader does; other readers may return fewer.
- `TryFrom<Vec<u8>>` for `RawZtxtChunk` and the `Display` impls are not part of this model.
- Error messages are not modelled; errors carry only their kind.
- IconRoundTrip: proves that each line `Icon::save` writes reads back through the settings loop. It does not state one theorem that loading a whole saved text gives the icon back.
- LegacyIcon.Save: the hotspot is saved as its three numbers, but the older load stores the `array` line as an unknown setting (`HotspotNotPreserved`). No round trip is claimed for it.

## Findings

| source | as written | input that shows it | evidently intended | confidence | as-written member | corrected member |
|---|---|---|---|---|---|---|
| src/lib.rs:40-46 | `ensure_buffered_bytes` reads `additional_length_required` fresh bytes with `read_exact`, not only the bytes missing from the buffer | a 600-byte file of which 500 bytes were read first, with a zTXt chunk header ending at offset 41 and declaring 500 data bytes: 504 more bytes are asked for, only 100 remain, and `load_meta` fails with an I/O error although the chunk is in the file | read only the bytes still missing, so that a chunk present in the file is found | not executed | RawDmiCodec.EnsureBufferedOverreadsExample | RawDmiCodec.EnsureBuffered |
| src/icon.rs:690 | the image index is `(idx + 1) * frame - 1` | a state with four directions and two frames: south in frame 2 and north in frame 1 both give image 1, and frame 0 underflows | the frame-major index `(frame - 1) * dirs + idx`, the order in which `load_internal` stores images, with frame 0 refused | not executed | DmiIcon.GetImageAsWrittenCollides | DmiIcon.GetImage |
| src/icon.rs:161-183 | `read_dmi_headers` parses the peeked line with quotes refused before looking at its key | `# BEGIN DMI`, `version = 4.0`, `state = "a"`: the peeked state line fails on its quote, so a DMI without size lines never loads | a line that is not a size line ends the header, so that missing sizes default to 32 (src/icon.rs:290-292) | not executed | IconLoad.HeadersAsWrittenNeedWidth | IconLoad.Headers |

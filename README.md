# Rustlings asset codecs in Dafny

Rustlings is a reimplementation of DOS Lemmings. Before it can show a level, it
has to decode the game's original data files:

- the `.DAT` archives, which are compressed section by section with a
  bit-oriented LZ scheme and carry an XOR checksum;
- planar sprites and bitmaps, with three or four bit planes and an optional
  transparency mask;
- level records (2048 bytes: scalars, skill counts, terrain tiles, objects and
  a 32-character name) and the `ODDTABLE` parameter blocks;
- `GROUNDxO.DAT` tile-set descriptions (object and terrain infos and palettes);
- the run-length-encoded, three-plane `VGASPECx.DAT` special backgrounds.

This project models that decoding core, and the pure parts of the code that
consumes it:

- the level lookup through `LEVEL_TABLE`;
- the skill panel's minimap mask and frame;
- the level scene's scroll controller;
- the level viewer's composition of terrain tiles and special backgrounds onto
  the level buffer, and its view clamping.

The repository keeps several revisions of the same decoders side by side. Each
one is its own module:

- the current one under `src/game_data/file/`: `Read`, `Palette`, `Bitstream`,
  `Planar`, `SpriteDecoder`, `Level`, `Ground`, `Vgaspec`;
- an older one under `src/file/`: `FileSprite`, `FileLevel`, `FileGround`;
- the oldest one directly under `src/`: `Sprites`, `OldLevel`;
- the `.DAT` codec of `src/files/encoding/datfile.rs`: `Datfile`, with the
  unit-test vectors in `DatfileExamples`.

Each older revision is proved to agree with the current one, or the lemma
states exactly where the two differ.

The decoders are modelled as functions from byte sequences to a `Result`, with
an error kind for each way the source fails. Each loop the source runs over
mutable state is a method proved against those functions:

- the bit reader;
- the decompressor;
- the section and file parsers;
- the bit-plane loops;
- the palette and tile-table loops;
- the RLE unpacker;
- the minimap mask;
- the tile composition.

The bit reader, the scroll controller and the scene state are classes with the
source's fields. Byte buffers the source fills in place are arrays.

`Wrappers` (the `Result`/`Option` types and error kinds) and `Bytes` (bytes,
powers of two, bit operations on naturals) are shared helpers.

## Model

| member | source | states |
|---|---|---|
| Read.ReadByte | src/game_data/file/read.rs:3-12 | succeeds exactly when the offset is inside the buffer, and then yields that byte and the next offset; otherwise fails with OutOfBounds |
| Read.ReadWordBe | src/game_data/file/read.rs:14-21 | succeeds exactly when two bytes are left; the word is `b[o] + 256 b[o+1]` (little-endian despite the name), below 2^16, and the offset advances by 2 |
| Read.ReadWordLe | src/game_data/file/read.rs:23-30 | succeeds exactly when two bytes are left; the word is `256 b[o] + b[o+1]` (big-endian despite the name), and the offset advances by 2 |
| Read.WordReadersSwapped | src/game_data/file/read.rs:14-30 | the two word readers fail on the same offsets and otherwise return byte-swapped values |
| Palette.Expand6To8 | src/game_data/file/palette.rs:9-15 | on a 6-bit component the result is `4c + c/16`: the component sits in the top six bits and its two top bits are repeated below |
| Palette.ExpandEndpoints | src/game_data/file/palette.rs:9-15 | black stays 0 and full 6-bit intensity 0x3f becomes full 8-bit intensity 0xff |
| Palette.ExpandMonotone | src/game_data/file/palette.rs:9-15 | the expansion is strictly increasing on 6-bit inputs, so distinct colours stay distinct |
| Palette.ExpandTruncates | src/game_data/file/palette.rs:11-13 | for any byte the `u8` shift drops bits 6 and 7 from the top part, which keeps `(c mod 64) OR (c / 64)`, and the low two bits are `(c / 16) mod 4` |
| Palette.ReadPaletteEntry | src/game_data/file/palette.rs:17-23 | succeeds exactly when three bytes are left; the entry is the expansion of those three components, and the offset advances by 3 |
| Palette.LowerPaletteFixedCool | src/game_data/file/palette.rs:25-33 | entries 1 and 2 of the fixed lower palette are the expansions of (0x10,0x10,0x38) and (0x00,0x2c,0x00) |
| Palette.LowerPaletteFixedWarm | src/game_data/file/palette.rs:25-33 | entries 3 and 4 are the expansions of (0x3c,0x34,0x34) and (0x2c,0x2c,0x00) |
| Palette.LowerPaletteFixedRedGrey | src/game_data/file/palette.rs:25-33 | entries 5 and 6 are the expansions of (0x3c,0x08,0x08) and (0x20,0x20,0x20) |
| Bitstream.ShiftIn | src/game_data/file/encoding/bitstream.rs:83-84 | shifting a bit in at the bottom of a `u8` is `(2v mod 256) + b` |
| Bitstream.TakeNext | src/game_data/file/encoding/bitstream.rs:83-84 | the value after `n + 1` bits is the value after `n` bits with the next bit shifted in |
| Bitstream.MsbFirstBound | src/game_data/file/encoding/bitstream.rs:83-84 | `n` bits read most significant first are below 2^n |
| Bitstream.TakeIsMsbFirst | src/game_data/file/encoding/bitstream.rs:83-84 | the value `consume(n)` builds is the last bits read as a binary number, most significant first, reduced mod 256 (earlier bits fall off the top of the `u8`) |
| Bitstream.TakeBound | src/game_data/file/encoding/bitstream.rs:64-88 | for `n <= 8` no bit is lost: the value is below 2^n and equals the `n` bits read as a binary number |
| Bitstream.PosBound | src/game_data/file/encoding/bitstream.rs:67-81 | in every index state the reader can reach, the number of bits delivered does not exceed the number it can deliver |
| Bitstream.ConsumeStep | src/game_data/file/encoding/bitstream.rs:67-86 | one loop step: moving to the next byte keeps the position; the read fails exactly when every readable bit has been delivered, with OutOfBounds past the buffer and Overflow at bit 8 of a wider first byte; otherwise the bit read is the next delivered bit |
| Bitstream.Bitstream.constructor | src/game_data/file/encoding/bitstream.rs:11-18 | a new reader holds the buffer and first-byte width and has delivered nothing |
| Bitstream.Bitstream.Remaining | src/game_data/file/encoding/bitstream.rs:97-105 | on a non-empty buffer, `remaining` plus the bits delivered is `8 len - 8 + bits_in_first_byte`; with a first byte of at most 8 bits it is exactly the bits still readable |
| Bitstream.Bitstream.NextBit | src/game_data/file/encoding/bitstream.rs:67-86 | delivers the next bit and advances by one while bits are left; fails with the reader's exhaustion error otherwise |
| Bitstream.Bitstream.Consume | src/game_data/file/encoding/bitstream.rs:63-90 | `consume(count)` succeeds exactly when `count` bits are left; it then returns those bits shifted into a `u8` and advances by `count`; otherwise it fails with the exhaustion error |
| Bitstream.Bitstream.ShiftNext | src/game_data/file/encoding/bitstream.rs:83-86 | one loop iteration extends the value over the first `i` bits to the value over `i + 1` bits |
| Bitstream.ExampleThree | src/game_data/file/encoding/bitstream.rs:112-123 | the `bitstream_example_3` vector: `[0x57, 0xa3]` with a 6-bit first byte has 14 bits, yields 0b11000111 then 0b101010, and 6 and then 0 bits remain |
| Bitstream.ExampleThreeParts | src/game_data/file/encoding/bitstream.rs:125-139 | the `bitstream_example_3_parts` vector: the same 14 bits read as 4, 5, 5 give 0b1100, 0b01111, 0b01010 |
| Bitstream.ExampleThreeBits | src/game_data/file/encoding/bitstream.rs:112-123 | the 14 bits delivered from `[0x57, 0xa3]`, in order |
| Bitstream.ExampleThreeValues | src/game_data/file/encoding/bitstream.rs:118-137 | the values of the test vectors taken from those 14 bits |
| Bitstream.PackByte | src/game_data/file/encoding/bitstream.rs:27-38 | the byte `gobble` builds by shifting in at most eight bits: its bit `q`, counted from the bottom, is the bit shifted in `q` steps before the last one, and no bit above those shifted in is set |
| Bitstream.Gobble | src/game_data/file/encoding/bitstream.rs:27-51 | the test encoder emits one byte per started group of eight bits |
| Bitstream.FromBits | src/game_data/file/encoding/bitstream.rs:20-61 | `create_from_example` builds a buffer of one byte per started group of eight bits |
| Bitstream.FromBitsReadable | src/game_data/file/encoding/bitstream.rs:20-61 | a reader over the encoded sample can deliver exactly as many bits as the sample has |
| Bitstream.BitAtFromBits | src/game_data/file/encoding/bitstream.rs:20-61 | the `p`-th bit the reader delivers from the encoded sample is the sample's `p`-th bit |
| Bitstream.FromBitsRoundTrip | src/game_data/file/encoding/bitstream.rs:20-90 | round trip: the reader over `create_from_example(s)` delivers exactly the bits of `s`, in order |
| Bitstream.FromExampleOne | src/game_data/file/encoding/bitstream.rs:141-147 | the `bitstream_from_example_1` vector: sample 10011 gives 5 bits, read as 0b10011 |
| Bitstream.ExampleOneValues | src/game_data/file/encoding/bitstream.rs:141-147 | those five bits, shifted in, are 0x13 |
| Bitstream.FromExampleThree | src/game_data/file/encoding/bitstream.rs:157-166 | the `bitstream_from_example_3` vector: sample `01 10010011` gives 10 bits, read as 0b01 then 0b10010011 |
| Bitstream.ExampleThreeSampleValues | src/game_data/file/encoding/bitstream.rs:157-166 | those ten bits, shifted in as 2 and then 8, are 0x01 and 0x93 |
| Datfile.ReadWord | src/files/encoding/datfile.rs:15-20 | succeeds exactly when two bytes are left, with the big-endian word and the offset after it |
| Datfile.ReadWordAgreesWithReadWordLe | src/files/encoding/datfile.rs:15-20 | the `.DAT` word reader is the current `read_word_le`, result for result |
| Datfile.ReadHeader | src/files/encoding/datfile.rs:54-77 | (also `Header::read` of src/datfile.rs:29-52) succeeds exactly when the ten header bytes are there and the compressed size is at least 10; the header holds byte 0, byte 1 and the big-endian words at 4 and 8, and the offset moves past the header; with the bytes there the only error is CompressedSizeTooSmall |
| Datfile.XorAllPrefix | src/files/encoding/datfile.rs:90-92 | folding one more byte into the XOR of a prefix gives the XOR of the longer prefix, still a byte |
| Datfile.XorAllDetectsSingleChange | src/files/encoding/datfile.rs:79-95 | the checksum of two payloads of equal length that differ in exactly one byte differs |
| Datfile.CalculateChecksum | src/files/encoding/datfile.rs:79-95 | (also src/datfile.rs:71-87) fails with OutOfBounds when the payload runs past the buffer, and otherwise returns the XOR of every payload byte |
| Datfile.SourceOf | src/files/encoding/datfile.rs:196-202 | the reader over a payload delivers no more bits than `remaining()` starts from |
| Datfile.ReadBits | src/game_data/file/encoding/bitstream.rs:63-90 | `consume(n)` at bit position `p` succeeds exactly when `n` bits are left, advances by `n`, and stays below 2^n for `n <= 8` |
| Datfile.Literals | src/files/encoding/datfile.rs:113-119 | literal bytes: on success the position advances by eight bits per byte, the output grows by the count and keeps what it held; the only error is the reader's exhaustion |
| Datfile.CopyBack | src/files/encoding/datfile.rs:120-167 | a back-reference copy grows the output by the count and keeps what it held; its only error is OutOfBounds, where `len - 1 - offset` underflows |
| Datfile.ReadOffset | src/files/encoding/datfile.rs:132-133 | the distance of opcodes 1, 4, 5 and 6 (eight bits, then 0, 1, 2 or 4 more) is read exactly when those bits are left |
| Datfile.Copy | src/files/encoding/datfile.rs:120-167 | a back-reference chunk consumes its distance bits and appends `count` bytes to the output it keeps |
| Datfile.LiteralChunk | src/files/encoding/datfile.rs:113-119 | a literal chunk consumes its count field and appends at least one byte to the output it keeps |
| Datfile.BlockCopy | src/files/encoding/datfile.rs:155-167 | opcode 6 consumes exactly 20 bits and appends at least one byte to the output it keeps |
| Datfile.Chunk | src/files/encoding/datfile.rs:112-177 | every chunk consumes at least three bits and appends at least one byte to the output it keeps |
| Datfile.Step | src/files/encoding/datfile.rs:103-177 | every loop iteration consumes at least five bits and appends at least one byte to the output it keeps |
| Datfile.Run | src/files/encoding/datfile.rs:103-178 | the decoding loop never drops or changes output already produced |
| Datfile.Continue | src/files/encoding/datfile.rs:103-178 | one iteration plus the rest of the loop never drops or changes output already produced |
| Datfile.BytesCons | src/files/encoding/datfile.rs:116-118 | reading `count` bytes is reading one byte and then `count - 1` more |
| Datfile.LiteralsRead | src/files/encoding/datfile.rs:116-118 | reading literals succeeds exactly when enough bits are left, and appends exactly the next bytes of the stream, in reading order |
| Datfile.LiteralChunkLength | src/files/encoding/datfile.rs:113-119 | a literal chunk fails with Overflow when its `u8` count plus bias passes 255; otherwise it succeeds exactly when the bytes are there, and appends count plus bias bytes (1 to 8 for opcode 0, 9 to 255 for opcode 7) |
| Datfile.CopyBackRecurrence | src/files/encoding/datfile.rs:120-167 | a copy succeeds exactly when it copies nothing or its distance is inside the output; each new byte equals the byte `offset + 1` positions before it, even where source and destination overlap |
| Datfile.CopyBackSlice | src/files/encoding/datfile.rs:120-167 | without overlap a copy appends exactly the slice that starts `offset + 1` bytes before the end |
| Datfile.CopyBackRepeatsLast | src/files/encoding/datfile.rs:120-129 | distance 0 repeats the last byte `count` times |
| Datfile.OpcodeKinds | src/files/encoding/datfile.rs:104-110 | a first bit 0 and one more bit give opcodes 0 and 1; a first bit 1 and two more bits give opcodes 4 to 7 |
| Datfile.StepErrors | src/files/encoding/datfile.rs:104-176 | an iteration fails only because the reader runs dry, a literal count overflows `u8`, or a back-reference is out of bounds; opcodes 2 and 3 cannot be formed |
| Datfile.DecompressKeepsTarget | src/files/encoding/datfile.rs:101-180 | because the output is built reversed and turned around, what `target` held ends up unchanged at the end of the result |
| Datfile.DecompressNothing | src/files/encoding/datfile.rs:103 | when `remaining()` is already 0 the loop does not run and the target comes back unchanged |
| Datfile.ConsumeBits | src/files/encoding/datfile.rs:104-110 | the reader call returns what `ReadBits` describes and leaves the reader where it says |
| Datfile.PushLiterals | src/files/encoding/datfile.rs:116-118 | the push loop returns what `Literals` describes and leaves the reader where it says |
| Datfile.CopyBytes | src/files/encoding/datfile.rs:123-129 | the copy loop over a vector returns exactly what `CopyBack` describes |
| Datfile.ReadDistance | src/files/encoding/datfile.rs:132-133 | the distance reads return what `ReadOffset` describes |
| Datfile.CopyChunk | src/files/encoding/datfile.rs:120-154 | the back-reference arms return what `Copy` describes |
| Datfile.ConsumeLiteralChunk | src/files/encoding/datfile.rs:113-119 | the literal arms return what `LiteralChunk` describes |
| Datfile.ConsumeBlockCopy | src/files/encoding/datfile.rs:155-167 | the opcode 6 arm returns what `BlockCopy` describes |
| Datfile.DecodeChunk | src/files/encoding/datfile.rs:112-177 | the `match` on the opcode returns what `Chunk` describes |
| Datfile.DecodeStep | src/files/encoding/datfile.rs:104-177 | one loop iteration returns what `Step` describes |
| Datfile.DecompressSection | src/files/encoding/datfile.rs:97-181 | (also src/datfile.rs:89-173, the same body) `decompress_section` on a reader returns exactly the decompression of the reader's remaining bits onto `target` |
| Datfile.ParseSection | src/files/encoding/datfile.rs:188-214 | a section is found at the offset, with a non-empty payload inside the data and matching checksum; the next offset is right after its payload; its data is the decompression of that payload onto an empty vector |
| Datfile.DecodePayload | src/files/encoding/datfile.rs:195-208 | a decoded payload has the length the header announces and is the decompression of the payload; a decompression error is passed through |
| Datfile.ParseFrom | src/files/encoding/datfile.rs:183-224 | a successful parse yields at least one section |
| Datfile.PrependTwice | src/files/encoding/datfile.rs:211-214 | pushing sections in two steps is pushing them at once |
| Datfile.ParseFromStep | src/files/encoding/datfile.rs:187-221 | the parse fails with the first section's error, stops after a section that ends at the end of the data, and otherwise continues after it |
| Datfile.ReadSection | src/files/encoding/datfile.rs:188-214 | the body of the `parse` loop returns exactly what `ParseSection` describes |
| Datfile.BodyOfPayload | src/files/encoding/datfile.rs:195-214 | after the bounds and checksum checks pass, the section is the decoded payload and the next offset is right after it, and a decoding error is passed through |
| Datfile.ReadBody | src/files/encoding/datfile.rs:189-214 | the loop body after the header returns exactly what `SectionBody` describes |
| Datfile.ReadPayload | src/files/encoding/datfile.rs:195-208 | decompressing onto an empty vector and checking its length returns exactly what `DecodePayload` describes |
| Datfile.Parse | src/files/encoding/datfile.rs:183-224 | `parse` returns exactly `ParseFrom(data, 0)`; the `panic!` on an offset past the end cannot be reached |
| Datfile.ParseTiles | src/files/encoding/datfile.rs:183-224 | the sections of a successful parse lie back to back, each at the offset where the previous one ends, and each is found there |
| Datfile.TiledCons | src/files/encoding/datfile.rs:210-219 | a section found at an offset, followed by back-to-back sections from its end, gives back-to-back sections from the offset |
| Datfile.TiledExtent | src/files/encoding/datfile.rs:216-219 | back-to-back sections account for every byte to the end of the file |
| DatfileExamples.ExampleSource | src/game_data/file/encoding/bitstream.rs:20-61 | a reader over `create_from_example(s)` delivers exactly the bits of `s`, and `remaining()` starts at their number |
| DatfileExamples.ReadField | src/files/encoding/datfile.rs:104-174 | reading a field written in binary gives back its value |
| DatfileExamples.LiteralsOfFields | src/files/encoding/datfile.rs:116-118 | bytes written as eight-bit fields are read back as the same bytes |
| DatfileExamples.ReadOpcode | src/files/encoding/datfile.rs:104-110 | two or three opcode bits select the chunk that follows |
| DatfileExamples.StepLiterals | src/files/encoding/datfile.rs:113-119 | a 111 prefix, a count and count + 9 bytes decode to those bytes |
| DatfileExamples.OpcodeSeven | src/files/encoding/datfile.rs:104-119 | bits 111 select the literal chunk with an eight-bit count and bias 9 |
| DatfileExamples.LiteralChunkOfFields | src/files/encoding/datfile.rs:113-119 | a count field and count + 9 byte fields decode to those bytes |
| DatfileExamples.StepCopyTwo | src/files/encoding/datfile.rs:120-130 | bits 01 and an eight-bit distance decode to a two-byte copy at that distance |
| DatfileExamples.StepCopyThree | src/files/encoding/datfile.rs:131-142 | bits 100 and a nine-bit distance decode to a three-byte copy at that distance |
| DatfileExamples.NineBitOffset | src/files/encoding/datfile.rs:132-133 | the nine-bit distance of opcode 4 is the field's value |
| DatfileExamples.OneStep | src/files/encoding/datfile.rs:101-180 | a stream holding a single chunk puts the chunk's bytes, turned around, in front of the target |
| DatfileExamples.Op7Example | src/files/encoding/datfile.rs:231-246 | `test_op7`: the literal chunk of bytes 0 to 9 (count 0, so nine bytes) decodes to 9, 8, ..., 1 |
| DatfileExamples.Op1Example | src/files/encoding/datfile.rs:120-130 | opcode 1 on a target puts the copied bytes, turned around, in front of it |
| DatfileExamples.Op4Example | src/files/encoding/datfile.rs:131-142 | opcode 4 on a target puts the copied bytes, turned around, in front of it |
| DatfileExamples.CopyDistanceOne | src/files/encoding/datfile.rs:248-256 | the copy of `test_op1_example1` on the reversed target |
| DatfileExamples.CopyDistanceFour | src/files/encoding/datfile.rs:258-266 | the copy of `test_op1_example2` on the reversed target |
| DatfileExamples.CopyDistanceThree | src/files/encoding/datfile.rs:278-286 | the copy of `test_op4_example1` on the reversed target |
| DatfileExamples.CopyDistanceZero | src/files/encoding/datfile.rs:268-306 | distance 0 repeats the target's first byte, as in `test_op1_example3` and `test_op4_example3` |
| DatfileExamples.CopyOverlap | src/files/encoding/datfile.rs:288-296 | a three-byte copy at distance 1 reads a byte it has just written |
| DatfileExamples.Op7Reverse | src/files/encoding/datfile.rs:242-245 | the literals 1 to 9 come out as 9 down to 1 |
| DatfileExamples.Op1DistanceOne | src/files/encoding/datfile.rs:248-256 | `test_op1_example1`: `01 00000001` on [1,2,3,9,7] gives [1,2,1,2,3,9,7] |
| DatfileExamples.Op1DistanceFour | src/files/encoding/datfile.rs:258-266 | `test_op1_example2` (also src/datfile.rs:205-213): `01 00000100` gives [9,7,1,2,3,9,7] |
| DatfileExamples.Op1DistanceZero | src/files/encoding/datfile.rs:268-276 | `test_op1_example3`: `01 00000000` gives [1,1,1,2,3,9,7] |
| DatfileExamples.Op4DistanceThree | src/files/encoding/datfile.rs:278-286 | `test_op4_example1` (also src/datfile.rs:225-233): `100 000000011` gives [2,3,9,1,2,3,9,7] |
| DatfileExamples.Op4DistanceOne | src/files/encoding/datfile.rs:288-296 | `test_op4_example2`: `100 000000001` gives [2,1,2,1,2,3,9,7] |
| DatfileExamples.Op4DistanceZero | src/files/encoding/datfile.rs:298-306 | `test_op4_example3`: `100 000000000` gives [1,1,1,1,2,3,9,7] |
| Planar.PixelValue | src/game_data/file/sprite.rs:51-69 | a pixel assembled from `planes` bit planes is below 2^planes |
| Planar.PixelByte | src/game_data/file/sprite.rs:51-69 | with at most eight planes the pixel fits a `u8` |
| Planar.Stage | src/game_data/file/sprite.rs:51-69 | after the first `planes` planes, every pixel holds its value over those planes |
| Planar.Pixels | src/game_data/file/sprite.rs:51-69 | the plane loops succeed exactly when all `bpp` planes of `n / 8` bytes fit in the data; then there are `n` pixels, each below 2^bpp |
| Planar.PartialEnds | src/game_data/file/sprite.rs:51-69 | a row-major pass over a plane starts from the previous planes' values and ends with this plane added |
| Planar.OrPlaneBit | src/game_data/file/sprite.rs:66 | ORing the plane's bit at position `plane` into a pixel built from the lower planes adds that bit |
| Planar.PartialStep | src/game_data/file/sprite.rs:56-66 | visiting pixel `k` in a row-major pass changes that pixel alone, from its old value to its value with this plane |
| Planar.OrStep | src/game_data/file/sprite.rs:56-66 | the `|=` of the weighted bit into pixel `k` stays a byte and moves the pass on by one pixel |
| Planar.MaskTransparency | src/game_data/file/sprite.rs:87-99 | reading a mask plane succeeds exactly when the mask holds a whole plane of `n / 8` bytes, and gives `n` flags |
| Planar.ColumnEnds | src/file/sprite.rs:32-42 | a column-major pass over a plane starts from the previous planes' values and ends with this plane added |
| Planar.ColumnDoneStep | src/file/sprite.rs:32-42 | visiting row `y` of column `x` marks exactly pixel `y * width + x` as visited, which was not before |
| Planar.ColumnDoneNext | src/file/sprite.rs:32-42 | after the last row of column `x`, the visited pixels are those before column `x + 1` |
| Planar.ColumnStep | src/file/sprite.rs:34-40 | visiting pixel `y * width + x` in a column-major pass changes that pixel alone, to its value with this plane |
| Planar.ColumnOrStep | src/file/sprite.rs:34-40 | the `|=` of the weighted bit moves the column-major pass on by one row |
| Planar.ColumnNext | src/file/sprite.rs:32-42 | a finished column is the start of the next one |
| SpriteDecoder.Transparency | src/game_data/file/sprite.rs:71-101 | the transparency has one flag per pixel; with `Black`, a pixel is transparent exactly when its value is 0, and this never fails; a mask offset past the data fails |
| SpriteDecoder.BitmapOf | src/game_data/file/sprite.rs:27-104 | `Bitmap::read_planar` fails with BadBpp for more than 8 planes, then with BadDimensions unless the pixel count is a multiple of 8; a bitmap has the given size, one pixel and one flag per pixel, and every pixel below 2^bpp |
| SpriteDecoder.OrPlane | src/game_data/file/sprite.rs:51-69 | one pass of the plane loop succeeds exactly when the plane fits in the data, and then the array holds the pixels with this plane added |
| SpriteDecoder.OrRow | src/game_data/file/sprite.rs:55-67 | the inner loop over a row succeeds exactly when the row's last plane byte is in the data, and then adds the plane to the row's pixels |
| SpriteDecoder.OrPixel | src/game_data/file/sprite.rs:56-66 | one pixel's step succeeds exactly when its plane byte exists, and then adds the plane's bit to that pixel alone |
| SpriteDecoder.BlackTransparency | src/game_data/file/sprite.rs:79-86 | every pixel is marked transparent exactly when its value is 0 |
| SpriteDecoder.ReadMask | src/game_data/file/sprite.rs:87-99 | the mask loop succeeds exactly when the mask holds a whole plane, and then pixel `i` is transparent exactly when its mask bit is 0 |
| SpriteDecoder.MaskRow | src/game_data/file/sprite.rs:88-98 | one row of the mask loop succeeds exactly when its last mask byte exists, and extends the transparency read so far over the row |
| SpriteDecoder.ReadPlanes | src/game_data/file/sprite.rs:51-69 | from a zeroed array, the plane loops succeed exactly when `Pixels` does and leave exactly its pixels in the array |
| SpriteDecoder.ReadBitmapPlanar | src/game_data/file/sprite.rs:27-104 | (also `bitmap_read_planar` of src/game_data/file/sprite_helper.rs:5-82) `Bitmap::read_planar` returns exactly `BitmapOf`, errors included |
| SpriteDecoder.ReadTransparency | src/game_data/file/sprite.rs:71-101 | the transparency pass returns exactly `Transparency` of the decoded pixels, and on success the array holds it |
| SpriteDecoder.FrameAt | src/game_data/file/sprite.rs:150-159 | a frame whose slice runs past the data fails with OutOfBounds |
| SpriteDecoder.Frames | src/game_data/file/sprite.rs:149-160 | the frame loop yields exactly `count` frames |
| SpriteDecoder.FramesLayout | src/game_data/file/sprite.rs:149-160 | frame `i` of a sprite is the bitmap decoded from the slice at `offset + i * frame_size` |
| SpriteDecoder.FramesStop | src/game_data/file/sprite.rs:152-159 | the first failing frame decides the outcome: later frames are not read |
| SpriteDecoder.FramesNext | src/game_data/file/sprite.rs:149-160 | one more frame either fails with its error or is appended |
| SpriteDecoder.SpriteOf | src/game_data/file/sprite.rs:133-165 | a sprite has the given width and height and exactly `frame_count` frames |
| SpriteDecoder.ReadFrame | src/game_data/file/sprite.rs:150-159 | one loop iteration returns exactly `FrameAt` |
| SpriteDecoder.ReadSpritePlanar | src/game_data/file/sprite.rs:133-165 | (also `sprite_read_planar` of src/game_data/file/sprite_helper.rs:84-116) `Sprite::read_planar` returns exactly `SpriteOf`, and advances the offset by `frame_size * frame_count` on success only |
| FileSprite.BitmapOf | src/file/sprite.rs:12-46 | a bitmap of the older decoder has the given size and one pixel per cell |
| FileSprite.BitmapAgrees | src/file/sprite.rs:12-46 | the older decoder, looping columns outside and rows inside, fails exactly when the current one with `Black` transparency fails, with the same error, and decodes the same pixels |
| FileSprite.OrColumn | src/file/sprite.rs:32-42 | one column of the plane loop adds the plane to that column's pixels; it fails only when the plane does not fit in the data |
| FileSprite.OrCell | src/file/sprite.rs:34-40 | one cell's step reads a plane byte that exists and adds its bit to that pixel alone; it fails only when the plane does not fit |
| FileSprite.OrColumnPlane | src/file/sprite.rs:29-43 | one plane in column-major order succeeds exactly when the plane fits, and then adds it to every pixel, as the row-major order does |
| FileSprite.ReadPlanes | src/file/sprite.rs:29-43 | from a zeroed array, the column-major plane loops succeed exactly when `Pixels` does and leave exactly its pixels |
| FileSprite.ReadBitmapPlanar | src/file/sprite.rs:12-46 | `Bitmap::read_planar` returns exactly `BitmapOf` |
| FileSprite.FrameAt | src/file/sprite.rs:76-82 | a frame whose slice runs past the data fails with OutOfBounds |
| FileSprite.Frames | src/file/sprite.rs:73-83 | the frame loop yields exactly `count` frames |
| FileSprite.FramesLayout | src/file/sprite.rs:73-83 | frame `i` is decoded from the slice at `i * frame_size`, from the start of the data whatever the offset |
| FileSprite.FramesStop | src/file/sprite.rs:73-83 | the first failing frame decides the outcome |
| FileSprite.FramesNext | src/file/sprite.rs:73-83 | one more frame either fails with its error or is appended |
| FileSprite.SpriteOf | src/file/sprite.rs:57-88 | a sprite has the given size and exactly `frame_count` frames |
| FileSprite.ReadFrame | src/file/sprite.rs:74-82 | one loop iteration returns exactly `FrameAt` |
| FileSprite.ReadSpritePlanar | src/file/sprite.rs:57-88 | `Sprite::read_planar` returns exactly `SpriteOf`, and advances the offset by `frame_size * frame_count` on success only |
| FileSprite.FramesAgree | src/file/sprite.rs:73-83 | the older frame loop fails exactly when the current one does at offset 0 with `Black` transparency, with the same error, and decodes the same pixels frame by frame |
| FileSprite.FrameAgrees | src/file/sprite.rs:74-82 | one frame of the older decoder agrees with the current one in outcome, error and pixels |
| Sprites.BitmapOf | src/sprites.rs:10-43 | for 1 to 7 planes (asserted), decoding succeeds exactly when the pixel count is a multiple of 8 and the data is exactly `bpp` planes long; a bitmap has the given size and pixels below 2^bpp |
| Sprites.BitmapAgrees | src/sprites.rs:10-43 | where the oldest decoder succeeds it agrees with the older one, and so does it wherever the older one succeeds on data of exactly the right length |
| Sprites.ReadBitmapPlanar | src/sprites.rs:10-43 | `Bitmap::read_planar` returns exactly `BitmapOf` |
| Sprites.FrameAt | src/sprites.rs:77-86 | a frame inside the data decodes exactly when the pixel count is a multiple of 8 and the frame size is `bpp` planes |
| Sprites.Frames | src/sprites.rs:77-86 | the frame loop yields exactly `count` frames |
| Sprites.SpriteOf | src/sprites.rs:53-89 | a sprite has the given size and exactly `frame_count` frames |
| Sprites.ReadFrame | src/sprites.rs:78-85 | one loop iteration returns exactly `FrameAt` |
| Sprites.ReadSpritePlanar | src/sprites.rs:53-89 | `Sprite::read_planar` returns exactly `SpriteOf` |
| Sprites.FramesSucceed | src/sprites.rs:66-86 | once the dimensions and the length check pass, every frame decodes |
| Sprites.SpriteSucceeds | src/sprites.rs:62-86 | the oldest sprite decoder succeeds exactly when the pixel count is a multiple of 8 and the data holds all frames |
| Sprites.FramesAgree | src/sprites.rs:77-86 | on data that holds all frames, the oldest frame loop gives the same result as the older one |
| Sprites.FrameAgrees | src/sprites.rs:78-85 | one frame of the oldest decoder is the older decoder's frame |
| Sprites.SpriteAgrees | src/sprites.rs:53-89 | with whole-byte dimensions the oldest and the older sprite decoders give the same result, errors included |
| Sprites.FileShort | src/file/sprite.rs:73-83 | on data too short for all frames the older decoder fails with OutOfBounds, where the oldest one fails its length check |
| Sprites.FailsOutOfBounds | src/file/sprite.rs:73-83 | with whole-byte dimensions the older frame loop can only fail with OutOfBounds |
| Level.Read8 | src/game_data/file/level.rs:152-154 | succeeds exactly inside the data, with that byte |
| Level.Read16 | src/game_data/file/level.rs:156-158 | succeeds exactly when two bytes are left, with the big-endian word (`read_word_le`) |
| Level.AsI16 | src/game_data/file/level.rs:199-200 | `as i16`: the value in the signed 16-bit range congruent to the word modulo 2^16 |
| Level.AsI32 | src/game_data/file/level.rs:182-186 | `as i32`: the value in the signed 32-bit range congruent modulo 2^32 |
| Level.SignExtend9 | src/game_data/file/level.rs:186 | 9-bit sign extension: the value in [-256, 256) congruent modulo 512 |
| Level.TileY | src/game_data/file/level.rs:182-186 | `((y << 16) >> 23) - 4` on `i32` is bits 7 to 15 of the word, sign-extended, minus 4, so within [-260, 251] |
| Level.TileAt | src/game_data/file/level.rs:171-192 | `read_terrain_tile` fails with BadIndex from slot 400 on and never fails on a 2048-byte record; the slot is empty exactly when its first word is 0xffff; a tile has x in [-16, 4079], y in [-260, 251] and id below 64 |
| Level.ObjectAt | src/game_data/file/level.rs:194-217 | `read_object` fails with BadIndex from slot 32 on and never fails on a 2048-byte record; the slot is empty exactly when its eight bytes are all 0; x is a signed word minus 16 and y a signed word |
| Level.Present | src/game_data/file/level.rs:105-117 | keeping the present entries of the slots gives at most one per slot |
| Level.PresentFrom | src/game_data/file/level.rs:105-117 | when no slot fails nothing fails, and every kept entry was read from a slot |
| Level.PresentNext | src/game_data/file/level.rs:106-110 | one more slot passes on an error, skips an empty slot, or appends its entry |
| Level.TileSlots | src/game_data/file/level.rs:106-110 | slot `i` of the table is `read_terrain_tile(data, i)` |
| Level.Tiles | src/game_data/file/level.rs:105-110 | the terrain loop never fails on a 2048-byte record and yields at most one tile per slot, each within the tile ranges |
| Level.ObjectSlots | src/game_data/file/level.rs:113-117 | slot `i` of the table is `read_object(data, i)` |
| Level.Objects | src/game_data/file/level.rs:112-117 | the object loop never fails on a 2048-byte record and yields at most one object per slot |
| Level.Skills | src/game_data/file/level.rs:100-103 | reading `count` skill counts succeeds exactly when the last word is inside the data; count `i` is the word at `0x08 + 2i` |
| Level.CharFromU32 | src/game_data/file/level.rs:165 | every byte value is a valid `char` with that code point |
| Level.TrimStart | src/game_data/file/level.rs:168 | removes exactly the leading whitespace: the result is a suffix, what was cut is whitespace, and it starts with a non-whitespace character |
| Level.TrimEnd | src/game_data/file/level.rs:168 | removes exactly the trailing whitespace: the result is a prefix, what was cut is whitespace, and it ends with a non-whitespace character |
| Level.Trim | src/game_data/file/level.rs:168 | `trim` leaves a slice of the input with only whitespace cut on either side, and neither end of a non-empty result is whitespace |
| Level.NameOf | src/game_data/file/level.rs:160-169 | reading a name succeeds exactly when its 32 bytes are inside the data |
| Level.ReadName | src/game_data/file/level.rs:160-169 | the loop over the 32 characters returns exactly `NameOf` |
| Level.ParametersOf | src/game_data/file/level.rs:119-127 | the parameter block succeeds exactly when the skill words and the name fit; it has eight skill counts, the ones not read being 0 |
| Level.ReadSkills | src/game_data/file/level.rs:100-103 | the skill loop returns exactly the eight counts of `Skills` |
| Level.ReadParameters | src/game_data/file/level.rs:136-150 | `decode_oddtable_entry` returns exactly `ParametersOf` with eight skills |
| Level.LevelOf | src/game_data/file/level.rs:95-134 | `decode_level` succeeds exactly on a 2048-byte record; its parameters are those of the block with the name at 0x7e0, and it holds at most 400 tiles and 32 objects |
| Level.ReadTiles | src/game_data/file/level.rs:105-110 | on a 2048-byte record the terrain loop returns exactly the present tiles of the 400 slots |
| Level.ReadObjects | src/game_data/file/level.rs:112-117 | on a 2048-byte record the object loop returns exactly the present objects of the 32 slots |
| Level.DecodeLevel | src/game_data/file/level.rs:95-134 | `decode_level` returns exactly `LevelOf` |
| Level.Entries | src/game_data/file/level.rs:86-90 | the first `n` odd-table blocks that fit in the data all decode |
| Level.EntriesNext | src/game_data/file/level.rs:86-90 | one more block appends the parameters decoded from its 0x38-byte slice, name at 0x18 |
| Level.OddtableOf | src/game_data/file/level.rs:76-93 | `read_oddtable` succeeds exactly on 80 blocks of 0x38 bytes, and yields 80 entries |
| Level.ReadOddtable | src/game_data/file/level.rs:76-93 | the loop over the blocks returns exactly `OddtableOf` |
| FileLevel.Read16 | src/file/level.rs:89-91 | the older `read16`, two `read8`s with the first byte high, is the current `read16` |
| FileLevel.WrappingAdd32 | src/file/level.rs:121 | `u32::wrapping_add` is addition modulo 2^32 |
| FileLevel.WrapSignExtend | src/file/level.rs:120-121 | flipping bit 8 of a 9-bit value and adding 0xffffff00 modulo 2^32, read as `i32`, is 9-bit sign extension |
| FileLevel.TileYAgrees | src/file/level.rs:115-121 | the older tile y, from two bytes by XOR and wrapping add, equals the current two-shift tile y of the word they form |
| FileLevel.TileAt | src/file/level.rs:104-127 | the older `read_terrain_tile` fails with BadIndex from slot 400 on |
| FileLevel.TileAgrees | src/file/level.rs:104-127 | every terrain slot of every buffer decodes as in the current revision, errors included |
| FileLevel.SecondWord | src/file/level.rs:115-122 | y and id taken from the two bytes equal y and id taken from the word they form |
| FileLevel.LevelOf | src/file/level.rs:155-192 | the older `Level::decode` succeeds exactly on a 2048-byte record; it reads seven skill counts, so the eighth is 0 |
| FileLevel.TileSlots | src/file/level.rs:165-170 | slot `i` of the older terrain table is the older `read_terrain_tile(data, i)` |
| FileLevel.TilesAgree | src/file/level.rs:165-170 | the older terrain table is the current one slot by slot, and keeps the same tiles |
| FileLevel.ParametersAgree | src/file/level.rs:160-163 | reading seven skill counts instead of eight fails on exactly the same records, and otherwise gives the same block with the eighth count 0 |
| FileLevel.LevelAgrees | src/file/level.rs:155-192 | the older decoder accepts exactly the records the current one accepts, and decodes them alike except that the eighth skill count (diggers) is 0 |
| OldLevel.LevelOf | src/level.rs:50-74 | the oldest `Level::decode` succeeds exactly on a 2048-byte record and reads seven skill counts, the eighth being 0 |
| OldLevel.LevelAgrees | src/level.rs:31-74 | the oldest decoder accepts the same records as the older one and reads the same scalars, skills and name |
| Ground.ReadObjectInfo | src/game_data/file/ground.rs:99-138 | succeeds exactly when the 28-byte record is inside the buffer, with the fields at their offsets (little-endian words, `animation_loops` from bit 0 of the flags) and the offset after the record; otherwise OutOfBounds |
| Ground.ReadTerrainInfo | src/game_data/file/ground.rs:140-156 | succeeds exactly when the six bytes it reads are inside the buffer; the offset then moves on by 8, past two unread bytes |
| Ground.PaletteOf | src/game_data/file/ground.rs:158-176 | succeeds exactly when the eight stored entries (24 bytes) are there; entries 0 to 6 are the fixed lower palette, 8 to 15 the expanded stored colours, and entry 7 copies entry 8 |
| Ground.ReadPalette | src/game_data/file/ground.rs:158-176 | the loops over the palette array return exactly `PaletteOf` |
| Ground.ReadUpper | src/game_data/file/ground.rs:166-171 | the loop over entries 8 to 15 fills them with the stored colours and leaves 0 to 7 alone; it fails with OutOfBounds when the 24 bytes are not there |
| Ground.ReadColour | src/game_data/file/ground.rs:167-170 | one iteration sets entry `i` alone, or fails with OutOfBounds when its three bytes are not there |
| Ground.PaletteOfParts | src/game_data/file/ground.rs:158-176 | a palette with the fixed lower part, entry 7 equal to entry 8 and the stored upper part is `PaletteOf` |
| Ground.PalettesOf | src/game_data/file/ground.rs:178-192 | succeeds exactly when 24 skipped bytes and three palettes fit; the palettes are custom, standard and preview, read at 24, 48 and 72 bytes past the offset |
| Ground.ReadPalettes | src/game_data/file/ground.rs:178-192 | `read_palettes` returns exactly `PalettesOf` |
| Ground.ObjectInfos | src/game_data/file/ground.rs:64-69 | `n` object records are `n` infos |
| Ground.ObjectInfosNext | src/game_data/file/ground.rs:64-69 | one more iteration appends the record 28 bytes further on |
| Ground.TerrainInfos | src/game_data/file/ground.rs:74-79 | `n` terrain records are `n` infos |
| Ground.TerrainInfosNext | src/game_data/file/ground.rs:74-79 | one more iteration appends the record 8 bytes further on |
| Ground.GroundOf | src/game_data/file/ground.rs:60-97 | `read_ground` on the file's bytes succeeds exactly on a 1056-byte file (shorter fails a read, longer fails the end check) and yields 16 object infos and 64 terrain infos |
| Ground.ReadGround | src/game_data/file/ground.rs:60-97 | the loops of `read_ground` return exactly `GroundOf` |
| Ground.ReadObjectInfos | src/game_data/file/ground.rs:64-69 | the object loop returns the 16 records when they fit, and OutOfBounds otherwise |
| Ground.ReadTerrainInfos | src/game_data/file/ground.rs:74-79 | the terrain loop returns the 64 records when their read bytes fit, and OutOfBounds otherwise |
| Ground.GroundPalettes | src/game_data/file/ground.rs:81-96 | every palette of a tile set starts with the fixed lower palette and repeats entry 8 as entry 7 |
| FileGround.ReadWord | src/file/ground.rs:286-292 | the older `read_word` is the current `read_word_be` |
| FileGround.ReadPaletteEntry | src/file/ground.rs:152-158 | succeeds exactly when three bytes are left; each component is the stored byte times 4, on `usize`, with no low bits filled in |
| FileGround.PaletteOf | src/file/ground.rs:159-177 | succeeds exactly when 24 bytes are there; entries 0 to 6 are the fixed palette, 8 to 15 the stored colours, and entry 7 copies entry 8 |
| FileGround.ReadPalette | src/file/ground.rs:159-177 | the loops return exactly `PaletteOf` |
| FileGround.PalettesOf | src/file/ground.rs:179-193 | succeeds exactly when 24 skipped bytes and three palettes fit; custom, standard and preview at 24, 48 and 72 bytes past the offset |
| FileGround.ReadPalettes | src/file/ground.rs:179-193 | `read_palettes` returns exactly `PalettesOf` |
| FileGround.ContentOf | src/file/ground.rs:45-91 | `read` succeeds exactly on a 1056-byte file and yields 16 object infos and 64 terrain infos |
| FileGround.ReadContent | src/file/ground.rs:51-90 | the loops of `read` return exactly `ContentOf` |
| FileGround.ComponentAgrees | src/file/ground.rs:157 | a stored component reads alike in the older (`c << 2`) and current (`(c << 2) \| (c >> 4)` on `u8`) revisions exactly when it is below 16 |
| FileGround.UpperEntryAgrees | src/file/ground.rs:152-158 | an older stored colour stays below 1024 and maps to the current colour by undoing the shift and expanding |
| FileGround.PaletteAgrees | src/file/ground.rs:159-177 | the older palette fails exactly when the current one does, and entries 7 to 15 map to the current ones |
| FileGround.ContentAgrees | src/file/ground.rs:45-150 | the older reader fails exactly when the current one does, with the same error, and reads the same object and terrain infos |
| FileGround.PalettesAgree | src/file/ground.rs:179-193 | entries 7 to 15 of all three older palettes map to the current ones |
| Vgaspec.MagicPaletteEntryExpands | src/game_data/file/vgaspec.rs:16 | the magic palette entry is the expansion of the 6-bit colour (0x1f, 0x1f, 0) |
| Vgaspec.UnpackGrows | src/game_data/file/vgaspec.rs:40-69 | unpacking only appends, never beyond the capacity, and stops at a 0x80 tag inside the source past the start |
| Vgaspec.SectionOf | src/game_data/file/vgaspec.rs:71-75 | a section is accepted only when it unpacks to exactly 14400 bytes, which fits the destination |
| Vgaspec.ReadBitmapSection | src/game_data/file/vgaspec.rs:36-76 | the loop over the runs succeeds exactly when `SectionOf` does, writes the unpacked band into the front of the destination, returns the index past the 0x80 tag, passes the error on otherwise and leaves the rest of the destination alone |
| Vgaspec.UnpackPack | src/game_data/file/vgaspec.rs:44-57 | unpacking the literal-run packing of any data appends exactly that data (the decoder's inverse) |
| Vgaspec.PackRun | src/game_data/file/vgaspec.rs:44-55 | a packed literal run is the tag `n - 1` followed by its `n` bytes |
| Vgaspec.UnpackLiteralRun | src/game_data/file/vgaspec.rs:44-55 | a tag below 0x80 copies the next `tag + 1` source bytes and moves past them |
| Vgaspec.SectionPack | src/game_data/file/vgaspec.rs:36-76 | any 14400 bytes, packed, read back as the same section, with the index at the end of the packing |
| Vgaspec.PaletteOf | src/game_data/file/vgaspec.rs:86-96 | succeeds exactly when the 24 palette bytes are there; entries 0 to 6 are the fixed lower palette, 7 and 8 the magic entry, 9 to 15 the expanded stored colours 1 to 7 |
| Vgaspec.BuildPalette | src/game_data/file/vgaspec.rs:86-96 | the palette loop returns exactly `PaletteOf` |
| Vgaspec.BandsOf | src/game_data/file/vgaspec.rs:98-112 | reading `n` bands one after the other gives `n` sections of 14400 bytes |
| Vgaspec.BandsStop | src/game_data/file/vgaspec.rs:102-104 | the first band that fails decides the error of the whole read |
| Vgaspec.BandBitmap | src/game_data/file/vgaspec.rs:105-111 | a 14400-byte band decodes as a 960x40 bitmap of three planes with black transparency; its pixels are below 8 and transparent exactly when 0 |
| Vgaspec.FlattenIndex | src/game_data/file/vgaspec.rs:117-122 | in bands of equal length, element `j` of band `k` lands at `k * length + j` |
| Vgaspec.FlattenBelow | src/game_data/file/vgaspec.rs:117-122 | stitching bands of 3-bit pixels keeps every pixel below 8 |
| Vgaspec.ImageLayout | src/game_data/file/vgaspec.rs:114-130 | image pixel `38400 * k + j` is the remapped pixel `j` of band `k`, with the band's transparency |
| Vgaspec.ContentPixels | src/game_data/file/vgaspec.rs:98-137 | a decoded special background is 960x160; every pixel is 0 or in 9 to 15, and transparent exactly when it is 0 |
| Vgaspec.ImagePixel | src/game_data/file/vgaspec.rs:124-130 | each pixel of the stitched image is 0 or in 9 to 15, and transparent exactly when 0 |
| Vgaspec.RemappedColour | src/game_data/file/vgaspec.rs:15 | `PALETTE_MAP` sends 0 to 0 and 1 to 7 into 9 to 15 |
| Vgaspec.Stitch | src/game_data/file/vgaspec.rs:114-122 | the copy loop fills a fresh buffer with the bands one after the other |
| Vgaspec.Remap | src/game_data/file/vgaspec.rs:124-130 | the in-place loop leaves the buffer holding `Remapped` of what it held |
| Vgaspec.ReadBands | src/game_data/file/vgaspec.rs:98-112 | the band loop fails exactly when `BandsOf` does, with its error, and otherwise returns the decoded bitmap of each band |
| Vgaspec.Assemble | src/game_data/file/vgaspec.rs:114-137 | stitching and remapping return exactly the image of the four bands |
| Vgaspec.ReadCompressedData | src/game_data/file/vgaspec.rs:78-140 | `read_compressed_data` returns exactly the decompressed file's content, failing on an archive without exactly one section |
| GameData.IndicesBelow | src/game_data/game_data.rs:54-57 | any table entry below 0xa0 gives level and `ODDTABLE` indices below 80 |
| GameData.TableInRange | src/game_data/game_data.rs:9-18 | `LEVEL_TABLE` has 120 entries, none of them 0 (so `entry - 1` does not underflow), and each gives indices below 80 |
| GameData.ResolveLevel | src/game_data/game_data.rs:49-69 | `None` for an index past the table; otherwise `Some` exactly when the level index, and for an odd entry the `ODDTABLE` index, are in the lists; the result is the level record, with the `ODDTABLE` parameters in place of its own for an odd entry |
| GameData.ResolveTotal | src/game_data/game_data.rs:49-69 | with the 80 levels and the 80 `ODDTABLE` entries of the game loaded, every index of the table resolves |
| GameData.ResolveNone | src/game_data/game_data.rs:59-65 | an index of the table fails to resolve only when the levels or the `ODDTABLE` entries are fewer than 80 |
| SkillPanel.PanelCell | src/game_data/skill_panel.rs:25-27 | cell `x + 320 * y` of the panel is column `x` of row `y`, and it is in the minimap exactly when `(x, y)` is in the minimap rectangle |
| SkillPanel.MaskMinimap | src/game_data/skill_panel.rs:25-29 | the loops make every minimap cell transparent and leave every other flag as it was |
| SkillPanel.New | src/game_data/skill_panel.rs:24-35 | the panel keeps its size and pixels; its transparency is the old one with the minimap rectangle set; the minimap frame is `MinimapFrame` |
| SkillPanel.MinimapFrame | src/game_data/skill_panel.rs:38-60 | the frame is 22x20 with one spare cell past the end (441 pixels and flags), left 0 and transparent |
| SkillPanel.FrameBorder | src/game_data/skill_panel.rs:43-48 | pixel `(x, y)` of the frame has the frame colour exactly when it is on the outer border, and is transparent exactly when it does not |
| SkillPanel.CreateMinimapFrame | src/game_data/skill_panel.rs:38-60 | the loops return exactly `MinimapFrame` |
| ScrollController.SceneStateLevel.constructor | src/game/scenes/level/scroll_controller.rs:86-87 | the scene state holds the view's left edge and the clock the controller reads |
| ScrollController.Scrolled | src/game/scenes/level/scroll_controller.rs:95-116 | no motion without a mode; scrolling left moves back by `ticks * speedup` but not below 0; scrolling right moves on by `ticks * speedup` but not past `LEVEL_X_MAX` |
| ScrollController.ScrolledInLevel | src/game/scenes/level/scroll_controller.rs:95-116 | a view inside the level stays inside it, whatever the mode and the elapsed ticks |
| ScrollController.ScrolledSplit | src/game/scenes/level/scroll_controller.rs:86-116 | scrolling `a` ticks and then `b` more is scrolling `a + b` at once, unless the first leg stops at an edge |
| ScrollController.ScrollController.constructor | src/game/scenes/level/scroll_controller.rs:26-33 | a new controller has no arrow down, no fast scroll and no scroll mode |
| ScrollController.ScrollController.Mode | src/game/scenes/level/scroll_controller.rs:35-45 | no scroll when both arrows or neither are down; left or right when exactly that arrow is down |
| ScrollController.ScrollController.DispatchEvent | src/game/scenes/level/scroll_controller.rs:47-84 | an arrow key down without modifier sets its arrow and clears fast scroll, with a shift key sets both; key up releases its arrow; other keys and modifiers change nothing; the scroll mode is left for `tick` |
| ScrollController.ScrollController.Tick | src/game/scenes/level/scroll_controller.rs:86-121 | the view moves by `Scrolled` under the mode in force, for the ticks elapsed and at speed 3 when fast; the result is dirty exactly when a mode was in force; then the mode follows the arrows |
| ScrollController.ScrollController.NextTickAtMsec | src/game/scenes/level/scroll_controller.rs:123-130 | no next tick without a scroll mode; otherwise the next multiple of 5 ms strictly after the scene's clock |
| ViewLevels.GetPalette | src/tools/cmd/view_levels.rs:51-66 | fails, with BadGraphicsSet, exactly when the extended graphics set (if nonzero) names no special background, or else the graphics set names no tile set |
| ViewLevels.Paint | src/tools/cmd/view_levels.rs:94-106 | a transparent pixel leaves the cell alone; a `do_not_overwrite` tile paints only empty cells; a `remove_terrain` tile empties the cell; any other tile paints its colour |
| ViewLevels.SourceIndex | src/tools/cmd/view_levels.rs:73-91 | a level cell has a source pixel exactly when it is inside the tile's rectangle; the pixel is inside the bitmap, counted from the top, or from the bottom when the tile is flipped |
| ViewLevels.ComposeTile | src/tools/cmd/view_levels.rs:68-109 | composing keeps the level's 1600x160 cells |
| ViewLevels.TileFootprint | src/tools/cmd/view_levels.rs:68-109 | a cell that composing changes lies inside the tile's rectangle, under an opaque pixel of the bitmap |
| ViewLevels.ComposeTileOntoBackground | src/tools/cmd/view_levels.rs:68-109 | the loops over the bitmap leave the buffer holding exactly `ComposeTile` of what it held |
| ViewLevels.SpecialLayer | src/tools/cmd/view_levels.rs:132-152 | the special background layer fails, with BadGraphicsSet, exactly when the extended graphics set names no special background; it has the level's cells, all empty when there is no special background |
| ViewLevels.SpecialPlacement | src/tools/cmd/view_levels.rs:140-151 | pixel `(x, y)` of the special background lands at column `304 + x` of row `y`, empty where it is transparent |
| ViewLevels.SpecialOutside | src/tools/cmd/view_levels.rs:132-152 | a cell outside the special background's rectangle stays empty |
| ViewLevels.PaletteMatchesBackground | src/tools/cmd/view_levels.rs:51-66 | for a level with a special background, the palette and the background are found together, and the palette is the background's own |
| ViewLevels.TilesOnto | src/tools/cmd/view_levels.rs:154-169 | drawing the terrain tiles in order keeps the level's cells |
| ViewLevels.UncoveredCell | src/tools/cmd/view_levels.rs:154-169 | a cell that no drawn tile's rectangle covers keeps its value |
| ViewLevels.DrawSpecialBackground | src/tools/cmd/view_levels.rs:132-152 | the loops fail exactly when `SpecialLayer` does, with its error, and otherwise fill a fresh buffer with exactly the layer |
| ViewLevels.DecodedBackgroundFits | src/tools/cmd/view_levels.rs:140-151 | a decoded special background, 960x160, lies at column 304 inside the 1600x160 level with pixel and transparency vectors covering it, so the drawing loops index inside every buffer |
| ViewLevels.ComposeBackground | src/tools/cmd/view_levels.rs:125-169 | the background part of `compose_level` returns the special layer with the terrain tiles drawn over it, or the first error |
| ViewLevels.ClampX | src/tools/cmd/view_levels.rs:348-353 | the view's left edge is kept when it is between 0 and `1590 - 1280 / zoom`, and is otherwise moved to the nearer of the two |
| ViewLevels.ClampIdempotent | src/tools/cmd/view_levels.rs:348-353 | clamping a clamped edge changes nothing |
| ViewLevels.TransformXForZoom | src/tools/cmd/view_levels.rs:355-360 | a zoom change keeps the view's centre, `x + 640 / zoom`, where that centre leaves the view inside the clamp range, and never goes past the range |

## Left out

- File access and logging: `read_vgaspec`, `read_ground` and the other readers take the bytes of a file; opening it, building its name and printing progress are not modelled.
- SDL: textures, the canvas, the window, event polling, rendering of the level and of the skill panel, and `update_texture`'s unsafe slice cast are not modelled; the viewer is modelled up to the byte buffer it uploads.
- Panics on untrusted file data become error kinds: `Overflow` for the `u8` addition of the literal count at src/files/encoding/datfile.rs:114 and for the payload underflow of an empty section; `OutOfBounds` for a back-reference before the start of the output (src/files/encoding/datfile.rs:126) and for every slice past the data.
- A header whose first-byte width exceeds 8 is an error of `parse` in the model; in the source the `u8` shift of the bit reader panics on it.
- Panics a caller controls become preconditions: the bit-plane count of the oldest decoder (src/sprites.rs), the clock of `tick` never going back while a scroll mode is in force, the `i32` range of `clamp_x` and `transform_x_for_zoom`, and a special background or tile bitmap whose buffers hold its pixels.
- ViewLevels.DrawSpecialBackground: requires the special background to fit at column 304 of the level (`Fits`). The source does not check the width: a background wider than 1296 columns would spill into the next row, and only a write past cell 256000 panics. Every decoded background is 960x160 and fits (`ViewLevels.DecodedBackgroundFits`), so only hand-made wider backgrounds are not modelled.
- ScrollController.ScrollController.Tick: the `u64` and `usize` arithmetic is on unbounded naturals; a clock or a position near 2^64 is not modelled.
- ScrollController.ScrollController.NextTickAtMsec: the `u64` product is unbounded; its wrap-around at 2^64 is not modelled.
- ScrollController.SceneStateLevel.constructor: src/game/state.rs declares the scene state with no fields; the model gives it the two fields the controller reads and writes.
- `LEVEL_WIDTH` of `rustlings::game_data` is not part of this model; the controller uses 1600, the level width of src/tools/cmd/view_levels.rs:25.
- `PALETTE_FIXED` of src/file/palette.rs is not part of this model; the older ground reader takes the fixed colours as the parameter `fixed`.
- The bit reader of src/bitstream.rs, used by src/datfile.rs, is not part of this model. src/datfile.rs is an older copy of src/files/encoding/datfile.rs: its `Header::read` (src/datfile.rs:29-52), `calculate_checksum` and `decompress_section` have the bodies of `read_header`, `calculate_checksum` and `decompress_section` there, and it has no `parse`. `Datfile` models them over the current bit reader.
- src/game_data/file/sprite_helper.rs repeats the bodies of `Bitmap::read_planar` and `Sprite::read_planar` as free functions; `SpriteDecoder` models both.
- The `game_data` revision of `datfile.rs` is not part of this model; `Vgaspec` decompresses through `Datfile`.
- Planar.PlaneBit: reads 0 past the end of the data, where the source would panic; every decoder checks the length before reading, so no decoded pixel depends on it.
- Datfile.ParseFrom: states only that a successful parse has a section; the layout of the sections over the input is stated by `Datfile.ParseTiles`.
- The skill-count loops of the older level decoders (src/file/level.rs, src/level.rs) are not separate methods; their results are stated through `Level.Skills` and the agreement lemmas.
- The other fields of `GameData` (tile sets' sprites, lemming sprites, the static palette) and their loading in src/game_data/reader.rs are not modelled; only what `resolve_level` and the viewer read is.
- The `Display` implementations of the section headers, `dump_level` and the difficulty names are formatting only and are not modelled.
- The rest of the viewer (`build_object_sprites`, `draw_objects`, `draw`, `render`, `switch_level`, `display_levels` and its event loop) drives SDL and is not modelled.

/** The section container of DAT files and its LZ-style decompressor
    (src/files/encoding/datfile.rs; the older src/datfile.rs holds the same
    header reader, checksum and decompressor). A file is a sequence of
    sections, each a 10-byte header followed by a compressed payload that is
    read backwards by a `Bitstream.Bitstream`. */
module Datfile {
  import opened Wrappers
  import opened Bytes
  import Read
  import opened Bitstream

  /** The fields of a section header. */
  datatype Header = Header(
    numBitsInFirstByte: nat,
    checksum: byte,
    decompressedDataSize: nat,
    compressedDataSize: nat)

  /** A decoded section: its header and its decompressed data. */
  datatype Section = Section(header: Header, data: seq<byte>)

  const HeaderSize: nat := 10

  /** The big-endian word at `offset`. */
  function BigEndianAt(buffer: seq<byte>, offset: nat): nat
    requires offset + 1 < |buffer|
  {
    256 * (buffer[offset] as int) + buffer[offset + 1] as int
  }

  /** `read_word`: `b[o] << 8 | b[o+1]`, a big-endian word. */
  function ReadWord(buffer: seq<byte>, offset: nat): (r: Result<(nat, nat)>)
    ensures r.Ok? <==> offset + 1 < |buffer|
    ensures r.Ok? ==> r.value == (BigEndianAt(buffer, offset), offset + 2)
  {
    var hi :- Read.ReadByte(buffer, offset);
    var lo :- Read.ReadByte(buffer, offset + 1);
    OrDisjoint(hi.0, 8, lo.0);
    Ok((Or(hi.0 * 256, lo.0), offset + 2))
  }

  /** The private word reader of this file reads the same words as `read_word_le`
      of the current revision. */
  lemma ReadWordAgreesWithReadWordLe(buffer: seq<byte>, offset: nat)
    ensures ReadWord(buffer, offset) == Read.ReadWordLe(buffer, offset)
  {
  }

  /** `read_header`: width of the first payload byte, checksum, two skipped bytes,
      decompressed size, two skipped bytes, compressed size (which counts the
      header itself and must be at least 10). */
  function ReadHeader(buffer: seq<byte>, offset: nat): (r: Result<(Header, nat)>)
    ensures r.Ok? <==> offset + 9 < |buffer| && BigEndianAt(buffer, offset + 8) >= HeaderSize
    ensures r.Ok? ==> r.value.1 == offset + HeaderSize
    ensures r.Ok? ==> r.value.0 == Header(buffer[offset], buffer[offset + 1],
      BigEndianAt(buffer, offset + 4), BigEndianAt(buffer, offset + 8))
    ensures offset + 9 < |buffer| && r.Err? ==> r.error == CompressedSizeTooSmall
  {
    var bits :- Read.ReadByte(buffer, offset);
    var checksum :- Read.ReadByte(buffer, bits.1);
    var decompressed :- ReadWord(buffer, checksum.1 + 2);
    var compressed :- ReadWord(buffer, decompressed.1 + 2);
    if compressed.0 < HeaderSize then Err(CompressedSizeTooSmall)
    else Ok((Header(bits.0, checksum.0, decompressed.0, compressed.0), compressed.1))
  }

  /** XOR of all bytes, folded from the left. */
  function XorAll(s: seq<byte>): (r: byte)
  {
    if s == [] then 0
    else
      XorBound(XorAll(s[..|s| - 1]), s[|s| - 1], 8);
      Xor(XorAll(s[..|s| - 1]), s[|s| - 1])
  }

  /** The checksum of one more byte of `s`. */
  lemma XorAllPrefix(s: seq<byte>, i: nat)
    requires i < |s|
    ensures Xor(XorAll(s[..i]), s[i]) < 256
    ensures XorAll(s[..i + 1]) == Xor(XorAll(s[..i]), s[i])
  {
    assert s[..i + 1][..i] == s[..i];
    XorBound(XorAll(s[..i]), s[i], 8);
  }

  /** Changing a single byte of a payload always changes its checksum. */
  lemma {:induction false} XorAllDetectsSingleChange(s: seq<byte>, t: seq<byte>, i: nat)
    requires |s| == |t| && i < |s| && s[i] != t[i]
    requires forall k :: 0 <= k < |s| && k != i ==> s[k] == t[k]
    ensures XorAll(s) != XorAll(t)
  {
    var n := |s| - 1;
    if i == n {
      assert s[..n] == t[..n];
      XorInjective(XorAll(s[..n]), s[n], t[n]);
    } else {
      XorAllDetectsSingleChange(s[..n], t[..n], i);
      XorInjective(s[n], XorAll(s[..n]), XorAll(t[..n]));
    }
  }

  /** `calculate_checksum`: the XOR of the `compressed - 10` payload bytes after the
      header. The header must come from `read_header`, as a compressed size below
      10 makes the range computation underflow. */
  method CalculateChecksum(header: Header, buffer: seq<byte>, offset: nat) returns (r: Result<byte>)
    requires header.compressedDataSize >= HeaderSize
    ensures offset + header.compressedDataSize - HeaderSize > |buffer| ==> r == Err(OutOfBounds)
    ensures offset + header.compressedDataSize - HeaderSize <= |buffer| ==>
      r == Ok(XorAll(buffer[offset..offset + header.compressedDataSize - HeaderSize]))
  {
    var checksum: byte := 0;
    if offset + header.compressedDataSize - HeaderSize > |buffer| {
      return Err(OutOfBounds);
    }
    var section: seq<byte> := buffer[offset..header.compressedDataSize - HeaderSize + offset];
    var i: nat := 0;
    while i < |section|
      invariant i <= |section|
      invariant checksum == XorAll(section[..i])
    {
      XorAllPrefix(section, i);
      checksum := Xor(checksum, section[i]);
      i := i + 1;
    }
    assert section[..i] == section;
    return Ok(checksum);
  }

  // The decompressor, first as a function of the bits the reader delivers.

  /** What a reader over a payload offers: the bits it delivers, the capacity its
      `remaining()` counts down from, and the error it reports when it runs dry. */
  datatype Source = Source(bits: seq<bit>, capacity: nat, exhausted: Error)

  function SourceOf(buffer: seq<byte>, firstBits: nat): (src: Source)
    requires |buffer| > 0
    ensures |src.bits| <= src.capacity
  {
    Source(Bits(buffer, firstBits), 8 * |buffer| - 8 + firstBits, Exhausted(buffer, firstBits))
  }

  /** `consume(n)` at position `p`: the value and the position after it. */
  function ReadBits(src: Source, p: nat, n: nat): (r: Result<(nat, byte)>)
    ensures r.Ok? <==> p + n <= |src.bits|
    ensures r.Ok? ==> r.value.0 == p + n
    ensures n <= 8 && r.Ok? ==> r.value.1 < Pow2(n)
  {
    if p + n <= |src.bits| then
      if n <= 8 then
        TakeBound(src.bits, p, n);
        Ok((p + n, Take(src.bits, p, n)))
      else Ok((p + n, Take(src.bits, p, n)))
    else Err(src.exhausted)
  }

  /** `count` literal bytes, eight bits each, appended in reading order. */
  function Literals(src: Source, p: nat, count: nat, acc: seq<byte>): (r: Result<(nat, seq<byte>)>)
    ensures r.Ok? ==> r.value.0 == p + 8 * count && (count == 0 || r.value.0 <= |src.bits|)
    ensures r.Ok? ==> |r.value.1| == |acc| + count && r.value.1[..|acc|] == acc
    ensures r.Err? ==> r.error == src.exhausted
    decreases count
  {
    if count == 0 then Ok((p, acc))
    else
      var read :- ReadBits(src, p, 8);
      Literals(src, read.0, count - 1, acc + [read.1])
  }

  /** `count` bytes each copied from `offset + 1` positions before the current end;
      a copy may read bytes it has just written. An offset reaching before the
      start of the buffer makes `len - 1 - offset` underflow. */
  function CopyBack(acc: seq<byte>, offset: nat, count: nat): (r: Result<seq<byte>>)
    ensures r.Ok? ==> |r.value| == |acc| + count && r.value[..|acc|] == acc
    ensures r.Err? ==> r.error == OutOfBounds
    decreases count
  {
    if count == 0 then Ok(acc)
    else if offset >= |acc| then Err(OutOfBounds)
    else CopyBack(acc + [acc[|acc| - 1 - offset]], offset, count - 1)
  }

  /** The back-reference distance of opcodes 1, 4, 5 and 6: eight bits, then
      `lowBits` more below them. */
  function ReadOffset(src: Source, p: nat, lowBits: nat): (r: Result<(nat, nat)>)
    requires lowBits <= 4
    ensures r.Ok? <==> p + 8 + lowBits <= |src.bits|
    ensures r.Ok? ==> r.value.0 == p + 8 + lowBits
  {
    var high :- ReadBits(src, p, 8);
    if lowBits == 0 then Ok((high.0, high.1 as nat))
    else
      var low :- ReadBits(src, high.0, lowBits);
      Ok((low.0, Or(Shl(high.1, lowBits), low.1)))
  }

  /** A back-reference chunk: distance at `p`, then `count` copied bytes. */
  function Copy(src: Source, p: nat, lowBits: nat, count: nat, acc: seq<byte>): (r: Result<(nat, seq<byte>)>)
    requires lowBits <= 4
    ensures r.Ok? ==> r.value.0 == p + 8 + lowBits <= |src.bits|
    ensures r.Ok? ==> |r.value.1| == |acc| + count && r.value.1[..|acc|] == acc
  {
    var offset :- ReadOffset(src, p, lowBits);
    var out :- CopyBack(acc, offset.1, count);
    Ok((offset.0, out))
  }

  /** `(first_bit << 1) | next` or `(first_bit << 2) | next`, on `u8`. */
  function Opcode(first: byte, next: byte): byte
  {
    OrBound((4 * first) % 256, next, 8);
    OrBound((2 * first) % 256, next, 8);
    if first == 0 then Or((2 * first) % 256, next) else Or((4 * first) % 256, next)
  }

  /** A literal chunk: a `countBits`-bit count, plus `bias` in `u8` arithmetic,
      then that many literal bytes. */
  function LiteralChunk(src: Source, p: nat, countBits: nat, bias: nat, acc: seq<byte>): (r: Result<(nat, seq<byte>)>)
    requires 0 < countBits <= 8 && bias > 0
    ensures r.Ok? ==> p + countBits <= r.value.0 <= |src.bits|
    ensures r.Ok? ==> |r.value.1| > |acc| && r.value.1[..|acc|] == acc
  {
    var count :- ReadBits(src, p, countBits);
    if count.1 + bias > 255 then Err(Overflow) else Literals(src, count.0, count.1 + bias, acc)
  }

  /** Opcode 6: an eight-bit block size, then a back-reference of that many plus
      one bytes. */
  function BlockCopy(src: Source, p: nat, acc: seq<byte>): (r: Result<(nat, seq<byte>)>)
    ensures r.Ok? ==> p + 20 == r.value.0 <= |src.bits|
    ensures r.Ok? ==> |r.value.1| > |acc| && r.value.1[..|acc|] == acc
  {
    var blockSize :- ReadBits(src, p, 8);
    Copy(src, blockSize.0, 4, blockSize.1 + 1, acc)
  }

  /** The chunk an opcode announces, starting at `p`. */
  function Chunk(src: Source, p: nat, opcode: byte, acc: seq<byte>): (r: Result<(nat, seq<byte>)>)
    ensures r.Ok? ==> p + 3 <= r.value.0 <= |src.bits|
    ensures r.Ok? ==> |r.value.1| > |acc| && r.value.1[..|acc|] == acc
  {
    if opcode == 7 then LiteralChunk(src, p, 8, 9, acc)
    else if opcode == 1 then Copy(src, p, 0, 2, acc)
    else if opcode == 4 then Copy(src, p, 1, 3, acc)
    else if opcode == 5 then Copy(src, p, 2, 4, acc)
    else if opcode == 6 then BlockCopy(src, p, acc)
    else if opcode == 0 then LiteralChunk(src, p, 3, 1, acc)
    else Err(BadOpcode)
  }

  /** One iteration of the decompression loop at bit position `p`: a one-bit
      prefix, one or two more opcode bits, then the chunk. */
  function Step(src: Source, p: nat, acc: seq<byte>): (r: Result<(nat, seq<byte>)>)
    ensures r.Ok? ==> p + 5 <= r.value.0 <= |src.bits|
    ensures r.Ok? ==> |r.value.1| > |acc| && r.value.1[..|acc|] == acc
  {
    var first :- ReadBits(src, p, 1);
    var next :- ReadBits(src, first.0, if first.1 == 0 then 1 else 2);
    Chunk(src, next.0, Opcode(first.1, next.1), acc)
  }
  /** The loop `while remaining() > 0` from bit position `p`, on the reversed
      output `acc`. */
  function Run(src: Source, p: nat, acc: seq<byte>): (r: Result<seq<byte>>)
    requires p <= |src.bits|
    ensures r.Ok? ==> |r.value| >= |acc| && r.value[..|acc|] == acc
    decreases |src.bits| - p, 1
  {
    if p >= src.capacity then Ok(acc) else Continue(src, p, acc)
  }

  /** One more iteration of the loop, then the rest of it. */
  function Continue(src: Source, p: nat, acc: seq<byte>): (r: Result<seq<byte>>)
    requires p <= |src.bits|
    ensures r.Ok? ==> |r.value| >= |acc| && r.value[..|acc|] == acc
    decreases |src.bits| - p, 0
  {
    var step :- Step(src, p, acc);
    var out := Run(src, step.0, step.1);
    if out.Ok? then
      assert out.value[..|acc|] == step.1[..|acc|];
      out
    else out
  }

  /** `decompress_section` from bit position `p` onto `target`: the output is
      built reversed, then turned around. */
  function Decompress(src: Source, p: nat, target: seq<byte>): (r: Result<seq<byte>>)
    requires p <= |src.bits|
  {
    var out :- Run(src, p, Reverse(target));
    Ok(Reverse(out))
  }

  // Properties of the decompressor.

  /** The `count` bytes read eight bits at a time from position `p`. */
  function BytesAt(bits: seq<bit>, p: nat, count: nat): (r: seq<byte>)
    requires p + 8 * count <= |bits|
    ensures |r| == count
  {
    seq(count, i requires 0 <= i < count => Take(bits, p + 8 * i, 8))
  }

  lemma BytesCons(bits: seq<bit>, p: nat, count: nat)
    requires 0 < count && p + 8 * count <= |bits|
    ensures BytesAt(bits, p, count) == [Take(bits, p, 8)] + BytesAt(bits, p + 8, count - 1)
  {
    var all := BytesAt(bits, p, count);
    var rest := BytesAt(bits, p + 8, count - 1);
    forall i | 0 <= i < count
      ensures all[i] == ([Take(bits, p, 8)] + rest)[i]
    {
      if i > 0 {
        assert p + 8 * i == p + 8 + 8 * (i - 1);
      }
    }
  }

  /** A literal run delivers the next `count` bytes of the bit sequence, eight bits
      each, in reading order, and fails exactly when they are not all there. */
  lemma {:induction false} LiteralsRead(src: Source, p: nat, count: nat, acc: seq<byte>)
    requires p <= |src.bits|
    ensures Literals(src, p, count, acc).Ok? <==> p + 8 * count <= |src.bits|
    ensures p + 8 * count <= |src.bits| ==>
      Literals(src, p, count, acc).value.1
        == acc + BytesAt(src.bits, p, count)
    decreases count
  {
    if count > 0 && p + 8 <= |src.bits| {
      var b := Take(src.bits, p, 8);
      assert ReadBits(src, p, 8) == Ok((p + 8, b));
      assert Literals(src, p, count, acc) == Literals(src, p + 8, count - 1, acc + [b]);
      LiteralsRead(src, p + 8, count - 1, acc + [b]);
      if p + 8 * count <= |src.bits| {
        BytesCons(src.bits, p, count);
        assert (acc + [b]) + BytesAt(src.bits, p + 8, count - 1) == acc + BytesAt(src.bits, p, count);
      }
    } else if count > 0 {
      assert ReadBits(src, p, 8).Err?;
      assert p + 8 * count >= p + 8;
    }
  }

  /** Opcodes 0 and 7 append `count + bias` bytes, `count` being the next
      `countBits` bits; in `u8` arithmetic a sum past 255 overflows. */
  lemma LiteralChunkLength(src: Source, p: nat, countBits: nat, bias: nat, acc: seq<byte>)
    requires 0 < countBits <= 8 && bias > 0 && p + countBits <= |src.bits|
    ensures var count := Take(src.bits, p, countBits);
      var r := LiteralChunk(src, p, countBits, bias, acc);
      && (count + bias > 255 ==> r == Err(Overflow))
      && (r.Ok? <==> count + bias <= 255 && p + countBits + 8 * (count + bias) <= |src.bits|)
      && (r.Ok? ==> |r.value.1| == |acc| + count + bias)
  {
    var count := Take(src.bits, p, countBits);
    assert ReadBits(src, p, countBits) == Ok((p + countBits, count));
    if count + bias <= 255 {
      assert LiteralChunk(src, p, countBits, bias, acc) == Literals(src, p + countBits, count + bias, acc);
      LiteralsRead(src, p + countBits, count + bias, acc);
    }
  }

  /** A back-reference within the buffer succeeds, and every byte it appends equals
      the byte `offset + 1` positions before it, including bytes appended by the
      same copy. One reaching before the start fails. */
  lemma {:induction false} CopyBackRecurrence(acc: seq<byte>, offset: nat, count: nat)
    ensures CopyBack(acc, offset, count).Ok? <==> count == 0 || offset < |acc|
    ensures CopyBack(acc, offset, count).Ok? ==>
      var out := CopyBack(acc, offset, count).value;
      forall k :: |acc| <= k < |out| ==> out[k] == out[k - 1 - offset]
    decreases count
  {
    if count > 0 && offset < |acc| {
      var next := acc + [acc[|acc| - 1 - offset]];
      CopyBackRecurrence(next, offset, count - 1);
      var out := CopyBack(next, offset, count - 1).value;
      assert out[..|next|] == next;
      assert out[|acc|] == next[|acc|];
    }
  }

  /** A back-reference no longer than its distance copies a stretch of the buffer
      as it was. */
  lemma CopyBackSlice(acc: seq<byte>, offset: nat, count: nat)
    requires offset < |acc| && count <= offset + 1
    ensures CopyBack(acc, offset, count)
      == Ok(acc + acc[|acc| - 1 - offset..|acc| - 1 - offset + count])
  {
    CopyBackRecurrence(acc, offset, count);
    var out := CopyBack(acc, offset, count).value;
    var start := |acc| - 1 - offset;
    forall k | 0 <= k < |out|
      ensures out[k] == (acc + acc[start..start + count])[k]
    {
      if k < |acc| {
        assert out[k] == out[..|acc|][k];
      } else {
        assert out[k - 1 - offset] == out[..|acc|][k - 1 - offset];
      }
    }
    assert out == acc + acc[start..start + count];
  }

  /** Offset 0 repeats the last byte. */
  lemma {:induction false} CopyBackRepeatsLast(acc: seq<byte>, count: nat)
    requires |acc| > 0
    ensures CopyBack(acc, 0, count).Ok?
    ensures var out := CopyBack(acc, 0, count).value;
      forall k :: |acc| <= k < |out| ==> out[k] == acc[|acc| - 1]
    decreases count
  {
    if count > 0 {
      var next := acc + [acc[|acc| - 1]];
      CopyBackRepeatsLast(next, count - 1);
      var out := CopyBack(next, 0, count - 1).value;
      assert out[|acc|] == out[..|next|][|acc|];
    }
  }

  /** The two or three opcode bits always name one of the six chunk kinds. */
  lemma OpcodeKinds(first: byte, next: byte)
    requires first < 2 && next < (if first == 0 then 2 else 4)
    ensures Opcode(first, next) == if first == 0 then next else 4 + next
  {
    if first == 0 {
      assert (2 * first) % 256 == 0;
      OrZero(next);
    } else {
      assert (4 * first) % 256 == 4 == 1 * Pow2(2);
      OrDisjoint(1, 2, next);
    }
  }

  /** A step fails only as the reader does, on a `u8` overflow or on a
      back-reference before the start: the `bad chunk type` branch is never taken. */
  lemma StepErrors(src: Source, p: nat, acc: seq<byte>)
    ensures Step(src, p, acc).Err? ==> Step(src, p, acc).error in {src.exhausted, Overflow, OutOfBounds}
  {
    var first := ReadBits(src, p, 1);
    if first.Ok? {
      var (q, f) := first.value;
      assert f < 2 by {
        assert Pow2(1) == 2;
      }
      var next := ReadBits(src, q, if f == 0 then 1 else 2);
      if next.Ok? {
        assert next.value.1 < (if f == 0 then 2 else 4) by {
          assert Pow2(1) == 2 && Pow2(2) == 4;
        }
        OpcodeKinds(f, next.value.1);
      }
    }
  }

  /** The pre-seeded target survives as the suffix of the result; the new output
      stands reversed in front of it. */
  lemma DecompressKeepsTarget(src: Source, p: nat, target: seq<byte>)
    requires p <= |src.bits|
    ensures var r := Decompress(src, p, target);
      r.Ok? ==> |r.value| >= |target| && r.value[|r.value| - |target|..] == target
  {
    var run := Run(src, p, Reverse(target));
    if run.Ok? {
      var out := run.value;
      var n := |target|;
      assert out == out[..n] + out[n..];
      ReverseAppend(out[..n], out[n..]);
      ReverseReverse(target);
      assert Reverse(out)[|out| - n..] == Reverse(out[..n]);
    }
  }

  /** With no bits left, `target` comes back unchanged. */
  lemma DecompressNothing(src: Source, p: nat, target: seq<byte>)
    requires src.capacity <= p <= |src.bits|
    ensures Decompress(src, p, target) == Ok(target)
  {
    ReverseReverse(target);
  }

  // The decompressor as the source writes it, on a `Bitstream.Bitstream`.

  /** The contract of a method that reads from `bs`: it has the outcome `spec`
      describes, and on success leaves the reader at the position `spec` names. */
  ghost predicate Advanced<T>(bs: Bitstream, spec: Result<(nat, T)>, r: Result<T>)
    reads bs
  {
    if spec.Ok? then r == Ok(spec.value.1) && bs.Valid() && bs.Pos() == spec.value.0
    else r == Err(spec.error)
  }

  /** A reader over `src`. */
  ghost predicate Over(bs: Bitstream, src: Source)
    reads bs
  {
    bs.Valid() && |bs.buffer| > 0 && src == SourceOf(bs.buffer, bs.bitsInFirstByte)
  }

  /** `reader.consume(n)`, stated on the bits the reader delivers. */
  method ConsumeBits(bs: Bitstream, ghost src: Source, n: nat) returns (r: Result<byte>)
    requires Over(bs, src)
    modifies bs
    ensures Advanced(bs, ReadBits(src, old(bs.Pos()), n), r)
  {
    r := bs.Consume(n);
  }

  /** The loop that pushes `count` literal bytes. */
  method PushLiterals(bs: Bitstream, ghost src: Source, count: nat, acc: seq<byte>) returns (r: Result<seq<byte>>)
    requires Over(bs, src)
    modifies bs
    ensures Advanced(bs, Literals(src, old(bs.Pos()), count, acc), r)
  {
    ghost var spec := Literals(src, bs.Pos(), count, acc);
    var out := acc;
    var i := 0;
    while i < count
      invariant i <= count && Over(bs, src)
      invariant Literals(src, bs.Pos(), count - i, out) == spec
    {
      var b := ConsumeBits(bs, src, 8);
      if b.Err? {
        return Err(b.error);
      }
      out := out + [b.value];
      i := i + 1;
    }
    return Ok(out);
  }

  /** The loop that pushes `count` bytes from `offset + 1` before the end. */
  method CopyBytes(acc: seq<byte>, offset: nat, count: nat) returns (r: Result<seq<byte>>)
    ensures r == CopyBack(acc, offset, count)
  {
    var out := acc;
    var i := 0;
    while i < count
      invariant i <= count
      invariant CopyBack(out, offset, count - i) == CopyBack(acc, offset, count)
    {
      if offset >= |out| {
        return Err(OutOfBounds);
      }
      out := out + [out[|out| - 1 - offset]];
      i := i + 1;
    }
    return Ok(out);
  }

  /** Reads a back-reference distance. */
  method ReadDistance(bs: Bitstream, ghost src: Source, lowBits: nat) returns (r: Result<nat>)
    requires Over(bs, src) && lowBits <= 4
    modifies bs
    ensures Advanced(bs, ReadOffset(src, old(bs.Pos()), lowBits), r)
  {
    var hi := ConsumeBits(bs, src, 8);
    if hi.Err? {
      return Err(hi.error);
    }
    if lowBits == 0 {
      return Ok(hi.value);
    }
    var lo := ConsumeBits(bs, src, lowBits);
    if lo.Err? {
      return Err(lo.error);
    }
    return Ok(Or(Shl(hi.value, lowBits), lo.value));
  }

  /** A back-reference chunk. */
  method CopyChunk(bs: Bitstream, ghost src: Source, lowBits: nat, count: nat, acc: seq<byte>)
    returns (r: Result<seq<byte>>)
    requires Over(bs, src) && lowBits <= 4
    modifies bs
    ensures Advanced(bs, Copy(src, old(bs.Pos()), lowBits, count, acc), r)
  {
    var offset := ReadDistance(bs, src, lowBits);
    if offset.Err? {
      return Err(offset.error);
    }
    r := CopyBytes(acc, offset.value, count);
  }

  /** Opcodes 7 and 0: a count, then the literal bytes. */
  method ConsumeLiteralChunk(bs: Bitstream, ghost src: Source, countBits: nat, bias: nat, acc: seq<byte>)
    returns (r: Result<seq<byte>>)
    requires Over(bs, src) && 0 < countBits <= 8 && bias > 0
    modifies bs
    ensures Advanced(bs, LiteralChunk(src, old(bs.Pos()), countBits, bias, acc), r)
  {
    var count := ConsumeBits(bs, src, countBits);
    if count.Err? {
      return Err(count.error);
    }
    if count.value + bias > 255 {
      // `u8` overflow
      return Err(Overflow);
    }
    r := PushLiterals(bs, src, count.value + bias, acc);
  }

  /** Opcode 6: a block size, then the back-reference. */
  method ConsumeBlockCopy(bs: Bitstream, ghost src: Source, acc: seq<byte>) returns (r: Result<seq<byte>>)
    requires Over(bs, src)
    modifies bs
    ensures Advanced(bs, BlockCopy(src, old(bs.Pos()), acc), r)
  {
    var blockSize := ConsumeBits(bs, src, 8);
    if blockSize.Err? {
      return Err(blockSize.error);
    }
    r := CopyChunk(bs, src, 4, blockSize.value as nat + 1, acc);
  }

  /** The `match` on the opcode. */
  method DecodeChunk(bs: Bitstream, ghost src: Source, opcode: byte, acc: seq<byte>) returns (r: Result<seq<byte>>)
    requires Over(bs, src)
    modifies bs
    ensures Advanced(bs, Chunk(src, old(bs.Pos()), opcode, acc), r)
  {
    if opcode == 7 {
      r := ConsumeLiteralChunk(bs, src, 8, 9, acc);
    } else if opcode == 1 {
      r := CopyChunk(bs, src, 0, 2, acc);
    } else if opcode == 4 {
      r := CopyChunk(bs, src, 1, 3, acc);
    } else if opcode == 5 {
      r := CopyChunk(bs, src, 2, 4, acc);
    } else if opcode == 6 {
      r := ConsumeBlockCopy(bs, src, acc);
    } else if opcode == 0 {
      r := ConsumeLiteralChunk(bs, src, 3, 1, acc);
    } else {
      r := Err(BadOpcode);
    }
  }

  /** One iteration of the decompression loop. */
  method DecodeStep(bs: Bitstream, ghost src: Source, acc: seq<byte>) returns (r: Result<seq<byte>>)
    requires Over(bs, src)
    modifies bs
    ensures Advanced(bs, Step(src, old(bs.Pos()), acc), r)
  {
    var first := ConsumeBits(bs, src, 1);
    if first.Err? {
      return Err(first.error);
    }
    var next: Result<byte>;
    if first.value == 0 {
      next := ConsumeBits(bs, src, 1);
    } else {
      next := ConsumeBits(bs, src, 2);
    }
    if next.Err? {
      return Err(next.error);
    }
    r := DecodeChunk(bs, src, Opcode(first.value, next.value), acc);
  }

  /** `decompress_section`: decodes the reader's remaining bits onto `target`. */
  method DecompressSection(bs: Bitstream, target: seq<byte>) returns (r: Result<seq<byte>>)
    requires bs.Valid() && |bs.buffer| > 0
    modifies bs
    ensures r == Decompress(SourceOf(bs.buffer, bs.bitsInFirstByte), old(bs.Pos()), target)
  {
    ghost var src := SourceOf(bs.buffer, bs.bitsInFirstByte);
    ghost var spec := Run(src, bs.Pos(), Reverse(target));
    var out := Reverse(target);
    while bs.Remaining() > 0
      invariant Over(bs, src) && bs.Pos() <= |src.bits|
      invariant Run(src, bs.Pos(), out) == spec
      decreases |src.bits| - bs.Pos()
    {
      var next := DecodeStep(bs, src, out);
      if next.Err? {
        return Err(next.error);
      }
      out := next.value;
    }
    return Ok(Reverse(out));
  }

  // The container: `parse`.

  /** One iteration of `parse` at `offset`: a header, its checksum over the
      payload, the payload decompressed onto an empty vector, whose length must
      match the header; the next section starts right after the payload. An
      empty payload makes `remaining()` underflow. */
  function ParseSection(data: seq<byte>, offset: nat): (r: Result<(Section, nat)>)
    ensures r.Ok? ==> SectionAt(data, offset, r.value.0)
    ensures r.Ok? ==> r.value.1 == offset + r.value.0.header.compressedDataSize > offset + HeaderSize
    ensures r.Ok? ==> Decompress(SourceOf(data[offset + HeaderSize..r.value.1],
      r.value.0.header.numBitsInFirstByte), 0, []) == Ok(r.value.0.data)
  {
    var h :- ReadHeader(data, offset);
    SectionBody(data, h.0, h.1)
  }

  /** `parse` after the header: the payload of `header` at `o` checked and
      decompressed. */
  function SectionBody(data: seq<byte>, header: Header, o: nat): (r: Result<(Section, nat)>)
    requires header.compressedDataSize >= HeaderSize
  {
    var next := o + header.compressedDataSize - HeaderSize;
    if next > |data| then Err(OutOfBounds)
    else if XorAll(data[o..next]) != header.checksum then Err(ChecksumMismatch)
    else if next == o then Err(Overflow)
    else
      var out :- DecodePayload(header, data[o..next]);
      Ok((Section(header, out), next))
  }

  /** A payload decompressed onto an empty vector, failing when its length is
      not the one the header announces. */
  function DecodePayload(header: Header, payload: seq<byte>): (r: Result<seq<byte>>)
    requires |payload| > 0
    ensures r.Ok? ==> |r.value| == header.decompressedDataSize
    ensures r.Ok? ==> Decompress(SourceOf(payload, header.numBitsInFirstByte), 0, []) == Ok(r.value)
    ensures Decompress(SourceOf(payload, header.numBitsInFirstByte), 0, []).Err? ==>
      r == Err(Decompress(SourceOf(payload, header.numBitsInFirstByte), 0, []).error)
  {
    var out :- Decompress(SourceOf(payload, header.numBitsInFirstByte), 0, []);
    if |out| != header.decompressedDataSize then Err(SizeMismatch) else Ok(out)
  }

  /** `s` is a section found at `start`: its header is there, its non-empty
      payload fits the data and has the header's checksum, and its data is as
      long as the header announces. */
  predicate SectionAt(data: seq<byte>, start: nat, s: Section)
  {
    var h := s.header;
    && ReadHeader(data, start).Ok? && ReadHeader(data, start).value.0 == h
    && start + HeaderSize < start + h.compressedDataSize <= |data|
    && XorAll(data[start + HeaderSize..start + h.compressedDataSize]) == h.checksum
    && |s.data| == h.decompressedDataSize
  }

  /** The sections of `data` from `offset` on, until the end of the data. */
  function ParseFrom(data: seq<byte>, offset: nat): (r: Result<seq<Section>>)
    ensures r.Ok? ==> |r.value| > 0
    decreases |data| - offset
  {
    var (section, next) :- ParseSection(data, offset);
    if next == |data| then Ok([section])
    else
      var rest :- ParseFrom(data, next);
      Ok([section] + rest)
  }

  /** The sections parsed so far in front of the outcome of parsing the rest. */
  function Prepend(sections: seq<Section>, r: Result<seq<Section>>): Result<seq<Section>>
  {
    if r.Ok? then Ok(sections + r.value) else r
  }

  lemma PrependNothing(r: Result<seq<Section>>)
    ensures Prepend([], r) == r
  {
    if r.Ok? {
      assert [] + r.value == r.value;
    }
  }

  lemma PrependTwice(a: seq<Section>, b: seq<Section>, r: Result<seq<Section>>)
    ensures Prepend(a, Prepend(b, r)) == Prepend(a + b, r)
  {
    if r.Ok? {
      assert a + (b + r.value) == a + b + r.value;
    }
  }

  /** `ParseFrom` after one section. */
  lemma ParseFromStep(data: seq<byte>, offset: nat)
    ensures ParseSection(data, offset).Err? ==> ParseFrom(data, offset) == Err(ParseSection(data, offset).error)
    ensures ParseSection(data, offset).Ok? ==>
      var (section, next) := ParseSection(data, offset).value;
      ParseFrom(data, offset) == if next == |data| then Ok([section]) else Prepend([section], ParseFrom(data, next))
  {
  }

  /** The body of the `parse` loop, up to the push. */
  method ReadSection(data: seq<byte>, offset: nat) returns (r: Result<(Section, nat)>)
    ensures r == ParseSection(data, offset)
  {
    var h := ReadHeader(data, offset);
    if h.Err? {
      return Err(h.error);
    }
    r := ReadBody(data, h.value.0, h.value.1);
  }

  /** `SectionBody` once the payload has passed the checks before
      decompression: the outcome of decompressing it, as a section. */
  lemma BodyOfPayload(data: seq<byte>, header: Header, o: nat, out: Result<seq<byte>>)
    requires header.compressedDataSize > HeaderSize
    requires o + header.compressedDataSize - HeaderSize <= |data|
    requires XorAll(data[o..o + header.compressedDataSize - HeaderSize]) == header.checksum
    requires out == DecodePayload(header, data[o..o + header.compressedDataSize - HeaderSize])
    ensures out.Ok? ==> SectionBody(data, header, o) == Ok((Section(header, out.value), o + header.compressedDataSize - HeaderSize))
    ensures out.Err? ==> SectionBody(data, header, o) == Err(out.error)
  {
  }

  /** The part of the loop body after the header. */
  method ReadBody(data: seq<byte>, header: Header, o: nat) returns (r: Result<(Section, nat)>)
    requires header.compressedDataSize >= HeaderSize
    ensures r == SectionBody(data, header, o)
  {
    var next := o + header.compressedDataSize - HeaderSize;
    var checksum := CalculateChecksum(header, data, o);
    if checksum.Err? {
      return Err(checksum.error);
    }
    if checksum.value != header.checksum {
      return Err(ChecksumMismatch);
    }
    if next == o {
      return Err(Overflow);
    }
    var out := ReadPayload(header, data[o..next]);
    BodyOfPayload(data, header, o, out);
    if out.Err? {
      return Err(out.error);
    }
    return Ok((Section(header, out.value), next));
  }

  /** The payload read through a fresh bit reader, and the size check. */
  method ReadPayload(header: Header, payload: seq<byte>) returns (r: Result<seq<byte>>)
    requires |payload| > 0
    ensures r == DecodePayload(header, payload)
  {
    var reader := new Bitstream(payload, header.numBitsInFirstByte);
    var out := DecompressSection(reader, []);
    if out.Err? {
      return Err(out.error);
    }
    if |out.value| != header.decompressedDataSize {
      return Err(SizeMismatch);
    }
    return Ok(out.value);
  }

  /** `parse`: the loop over sections, pushing each onto `sections`. The source
      panics when the offset passes the end of the data; the checksum's bounds
      check rules that out. */
  method Parse(data: seq<byte>) returns (r: Result<seq<Section>>)
    ensures r == ParseFrom(data, 0)
  {
    var offset := 0;
    var sections: seq<Section> := [];
    ghost var spec := ParseFrom(data, 0);
    PrependNothing(spec);
    while true
      invariant offset < |data| || (offset == 0 && sections == [])
      invariant spec == Prepend(sections, ParseFrom(data, offset))
      decreases |data| - offset
    {
      var s := ReadSection(data, offset);
      if s.Err? {
        ParseFromStep(data, offset);
        return Err(s.error);
      }
      var (section, next) := s.value;
      ParseFromStep(data, offset);
      PrependTwice(sections, [section], ParseFrom(data, next));
      offset := next;
      sections := sections + [section];
      if offset == |data| {
        return Ok(sections);
      } else if offset > |data| {
        assert false;
      }
    }
  }

  /** The total size of sections in the file: headers and payloads. */
  function Extent(sections: seq<Section>): nat
  {
    if sections == [] then 0
    else sections[0].header.compressedDataSize + Extent(sections[1..])
  }

  /** Where a successful parse found its sections: each one where the sizes of
      the ones before it end, and together they cover the input exactly. */
  lemma {:induction false} ParseTiles(data: seq<byte>, offset: nat)
    requires ParseFrom(data, offset).Ok?
    ensures Tiled(data, offset, ParseFrom(data, offset).value)
    decreases |data| - offset
  {
    ParseFromStep(data, offset);
    var section := ParseSection(data, offset).value.0;
    var next := ParseSection(data, offset).value.1;
    if next == |data| {
      assert ParseFrom(data, offset).value == [section] + [];
      TiledCons(data, offset, section, next, []);
    } else {
      var rest := ParseFrom(data, next).value;
      assert ParseFrom(data, offset).value == [section] + rest;
      ParseTiles(data, next);
      TiledCons(data, offset, section, next, rest);
    }
  }

  /** Sections laid out back to back from `offset` to the end of `data`. */
  predicate Tiled(data: seq<byte>, offset: nat, ss: seq<Section>)
    decreases ss
  {
    if ss == [] then offset == |data|
    else SectionAt(data, offset, ss[0]) && Tiled(data, offset + ss[0].header.compressedDataSize, ss[1..])
  }

  lemma TiledCons(data: seq<byte>, offset: nat, section: Section, next: nat, rest: seq<Section>)
    requires SectionAt(data, offset, section) && next == offset + section.header.compressedDataSize
    requires Tiled(data, next, rest)
    ensures Tiled(data, offset, [section] + rest)
  {
    var ss := [section] + rest;
    assert ss[0] == section && ss[1..] == rest;
  }

  /** Tiled sections account for every byte after `offset`. */
  lemma {:induction false} TiledExtent(data: seq<byte>, offset: nat, ss: seq<Section>)
    requires Tiled(data, offset, ss)
    ensures offset + Extent(ss) == |data|
    decreases ss
  {
    if ss != [] {
      TiledExtent(data, offset + ss[0].header.compressedDataSize, ss[1..]);
    }
  }

}

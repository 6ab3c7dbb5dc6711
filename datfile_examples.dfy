/** The decompressor's test vectors (the `test_decompress_section` modules of
    src/files/encoding/datfile.rs and src/datfile.rs), stated on readers built
    by the example encoder `Bitstream.FromBits`. */
module DatfileExamples {
  import opened Wrappers
  import opened Bytes
  import opened Bitstream
  import opened Datfile

  /** A reader built from a sample delivers exactly the sample's bits, and its
      `remaining()` starts at the sample's length. */
  lemma ExampleSource(s: seq<bit>)
    requires |s| > 0
    ensures |FromBits(s).0| > 0
    ensures SourceOf(FromBits(s).0, FromBits(s).1).bits == s
    ensures SourceOf(FromBits(s).0, FromBits(s).1).capacity == |s|
  {
    FromBitsRoundTrip(s);
    FromBitsReadable(s);
  }

  lemma ReverseSnoc(s: seq<byte>, x: byte)
    ensures Reverse(s + [x]) == [x] + Reverse(s)
  {
    ReverseAppend(s, [x]);
    assert Reverse([x]) == [x];
  }

  lemma Middle(a: seq<bit>, b: seq<bit>, c: seq<bit>)
    ensures (a + b + c)[..|a|] == a
    ensures (a + b + c)[|a|..|a| + |b|] == b
    ensures (a + b + c)[|a| + |b|..] == c
  {
  }

  /** A group of binary digits in a sample: `v` written with `width` digits, most
      significant first. */
  function Field(v: nat, width: nat): (s: seq<bit>)
    ensures |s| == width
  {
    seq(width, i requires 0 <= i < width => Bit(v, width - 1 - i))
  }

  /** Bytes written as consecutive eight-digit groups. */
  function Fields(bytes: seq<byte>): (s: seq<bit>)
    ensures |s| == 8 * |bytes|
  {
    seq(8 * |bytes|, i requires 0 <= i < 8 * |bytes| => Bit(bytes[i / 8], 7 - i % 8))
  }

  /** The first `width - 1` digits of `v` are the digits of `v / 2`; the last is
      its lowest bit. */
  lemma FieldSplit(v: nat, width: nat)
    requires width > 0
    ensures Field(v, width) == Field(v / 2, width - 1) + [v % 2]
  {
    var f := Field(v, width);
    var g := Field(v / 2, width - 1);
    forall i | 0 <= i < width - 1
      ensures f[i] == g[i]
    {
      assert Bit(v, width - 1 - i) == Bit(v / 2, width - 2 - i);
    }
    assert f[width - 1] == Bit(v, 0) == v % 2;
    assert f == g + [v % 2];
  }

  /** The groups of a run of bytes: the first byte's digits, then the others'. */
  lemma FieldsSplit(bytes: seq<byte>)
    requires bytes != []
    ensures Fields(bytes) == Field(bytes[0], 8) + Fields(bytes[1..])
  {
    var f := Fields(bytes);
    var rest := Fields(bytes[1..]);
    assert f[..8] == Field(bytes[0], 8);
    forall i | 0 <= i < |rest|
      ensures f[8 + i] == rest[i]
    {
      assert (8 + i) / 8 == i / 8 + 1 && (8 + i) % 8 == i % 8;
    }
    assert f[8..] == rest;
    assert f == f[..8] + f[8..];
  }

  lemma {:induction false} MsbFirstField(v: nat, width: nat)
    requires v < Pow2(width)
    ensures MsbFirst(Field(v, width)) == v
  {
    if width > 0 {
      MsbFirstField(v / 2, width - 1);
      FieldSplit(v, width);
      var f := Field(v, width);
      assert f[..width - 1] == Field(v / 2, width - 1);
    }
  }

  /** A group of at most eight digits reads back as its value. */
  lemma ReadField(src: Source, p: nat, v: nat, width: nat)
    requires width <= 8 && v < Pow2(width)
    requires p + width <= |src.bits| && src.bits[p..p + width] == Field(v, width)
    ensures ReadBits(src, p, width) == Ok((p + width, v))
  {
    TakeBound(src.bits, p, width);
    MsbFirstField(v, width);
  }

  /** Bytes written as eight-digit groups read back as a literal run: a literal
      chunk delivers exactly the bytes its bits encode. */
  lemma {:induction false} LiteralsOfFields(src: Source, p: nat, bytes: seq<byte>, acc: seq<byte>)
    requires p + 8 * |bytes| <= |src.bits| && src.bits[p..p + 8 * |bytes|] == Fields(bytes)
    ensures Literals(src, p, |bytes|, acc) == Ok((p + 8 * |bytes|, acc + bytes))
    decreases |bytes|
  {
    if bytes != [] {
      FieldsHead(src, p, bytes);
      LiteralsStep(src, p, bytes, acc);
      LiteralsOfFields(src, p + 8, bytes[1..], acc + [bytes[0]]);
      assert acc + [bytes[0]] + bytes[1..] == acc + bytes;
    } else {
      assert acc + bytes == acc;
    }
  }

  /** The first eight digits of a run of byte groups read back as its first byte;
      the other groups follow them. */
  lemma FieldsHead(src: Source, p: nat, bytes: seq<byte>)
    requires bytes != []
    requires p + 8 * |bytes| <= |src.bits| && src.bits[p..p + 8 * |bytes|] == Fields(bytes)
    ensures ReadBits(src, p, 8) == Ok((p + 8, bytes[0]))
    ensures p + 8 + 8 * |bytes[1..]| == p + 8 * |bytes|
    ensures src.bits[p + 8..p + 8 + 8 * |bytes[1..]|] == Fields(bytes[1..])
  {
    var fields := src.bits[p..p + 8 * |bytes|];
    FieldsSplit(bytes);
    assert src.bits[p..p + 8] == fields[..8] == Field(bytes[0], 8);
    assert src.bits[p + 8..p + 8 * |bytes|] == fields[8..];
    ReadField(src, p, bytes[0], 8);
  }

  /** A literal run reads its first byte, then the rest. */
  lemma LiteralsStep(src: Source, p: nat, bytes: seq<byte>, acc: seq<byte>)
    requires bytes != [] && ReadBits(src, p, 8) == Ok((p + 8, bytes[0]))
    ensures Literals(src, p, |bytes|, acc) == Literals(src, p + 8, |bytes[1..]|, acc + [bytes[0]])
  {
  }

  /** The opcode digits at `p`: one prefix digit `first`, then `next` in one or
      two digits; the step continues with the chunk that opcode announces. */
  lemma ReadOpcode(src: Source, p: nat, first: nat, next: nat, acc: seq<byte>)
    requires first < 2 && next < (if first == 0 then 2 else 4)
    requires p + 3 - (1 - first) <= |src.bits|
    requires src.bits[p..p + 3 - (1 - first)] == Field(first, 1) + Field(next, 2 - (1 - first))
    ensures Step(src, p, acc) == Chunk(src, p + 3 - (1 - first), if first == 0 then next else 4 + next, acc)
  {
    var width := 2 - (1 - first);
    var t := src.bits[p..p + 1 + width];
    assert src.bits[p..p + 1] == t[..1] == Field(first, 1);
    assert src.bits[p + 1..p + 1 + width] == t[1..] == Field(next, width);
    ReadField(src, p, first, 1);
    ReadField(src, p + 1, next, width);
    OpcodeKinds(first, next);
  }

  /** Opcode 7 ("111"), an eight-digit count, then `count + 9` bytes of eight
      digits each: the step appends exactly those bytes. */
  lemma StepLiterals(src: Source, p: nat, count: nat, bytes: seq<byte>, acc: seq<byte>)
    requires count + 9 <= 255 && |bytes| == count + 9
    requires p + 11 + 8 * |bytes| <= |src.bits|
    requires src.bits[p..p + 3] == Field(1, 1) + Field(3, 2)
    requires src.bits[p + 3..p + 11] == Field(count, 8)
    requires src.bits[p + 11..p + 11 + 8 * |bytes|] == Fields(bytes)
    ensures Step(src, p, acc) == Ok((p + 11 + 8 * |bytes|, acc + bytes))
  {
    OpcodeSeven(src, p, acc);
    LiteralChunkOfFields(src, p + 3, count, bytes, acc);
  }

  /** "111" announces a literal chunk with an eight-bit count. */
  lemma OpcodeSeven(src: Source, p: nat, acc: seq<byte>)
    requires p + 3 <= |src.bits| && src.bits[p..p + 3] == Field(1, 1) + Field(3, 2)
    ensures Step(src, p, acc) == LiteralChunk(src, p + 3, 8, 9, acc)
  {
    ReadOpcode(src, p, 1, 3, acc);
    assert Chunk(src, p + 3, 7, acc) == LiteralChunk(src, p + 3, 8, 9, acc);
  }

  lemma LiteralChunkOfFields(src: Source, p: nat, count: nat, bytes: seq<byte>, acc: seq<byte>)
    requires count + 9 <= 255 && |bytes| == count + 9
    requires p + 8 + 8 * |bytes| <= |src.bits|
    requires src.bits[p..p + 8] == Field(count, 8)
    requires src.bits[p + 8..p + 8 + 8 * |bytes|] == Fields(bytes)
    ensures LiteralChunk(src, p, 8, 9, acc) == Ok((p + 8 + 8 * |bytes|, acc + bytes))
  {
    ReadField(src, p, count, 8);
    LiteralChunkCount(src, p, count, |bytes|, acc);
    LiteralsOfFields(src, p + 8, bytes, acc);
  }

  lemma LiteralChunkCount(src: Source, p: nat, count: nat, n: nat, acc: seq<byte>)
    requires n == count + 9 <= 255 && ReadBits(src, p, 8) == Ok((p + 8, count))
    ensures LiteralChunk(src, p, 8, 9, acc) == Literals(src, p + 8, n, acc)
  {
  }

  /** Opcode 1 ("01") with an eight-digit distance: two bytes copied from
      `offset + 1` positions before the end. */
  lemma StepCopyTwo(src: Source, p: nat, offset: nat, acc: seq<byte>)
    requires offset < 256 && p + 10 <= |src.bits|
    requires src.bits[p..p + 2] == Field(0, 1) + Field(1, 1)
    requires src.bits[p + 2..p + 10] == Field(offset, 8)
    ensures Step(src, p, acc) == (var out :- CopyBack(acc, offset, 2); Ok((p + 10, out)))
  {
    ReadOpcode(src, p, 0, 1, acc);
    ReadField(src, p + 2, offset, 8);
  }

  /** Opcode 4 ("100") with a nine-digit distance: three bytes copied from
      `offset + 1` positions before the end. */
  lemma StepCopyThree(src: Source, p: nat, offset: nat, acc: seq<byte>)
    requires offset < 512 && p + 12 <= |src.bits|
    requires src.bits[p..p + 3] == Field(1, 1) + Field(0, 2)
    requires src.bits[p + 3..p + 12] == Field(offset, 9)
    ensures Step(src, p, acc) == (var out :- CopyBack(acc, offset, 3); Ok((p + 12, out)))
  {
    ReadOpcode(src, p, 1, 0, acc);
    NineBitOffset(src, p + 3, offset);
    assert Chunk(src, p + 3, 4, acc) == Copy(src, p + 3, 1, 3, acc);
  }

  lemma NineBitOffset(src: Source, p: nat, offset: nat)
    requires offset < 512 && p + 9 <= |src.bits|
    requires src.bits[p..p + 9] == Field(offset, 9)
    ensures ReadOffset(src, p, 1) == Ok((p + 9, offset))
  {
    NineBitHalves(src, p, offset);
    assert Pow2(1) == 2;
    OrShl(offset / 2, 1, offset % 2);
    assert Shl(offset / 2, 1) == 2 * (offset / 2);
  }

  /** The nine digits of a distance read back as its upper eight bits, then its
      lowest bit. */
  lemma NineBitHalves(src: Source, p: nat, offset: nat)
    requires offset < 512 && p + 9 <= |src.bits|
    requires src.bits[p..p + 9] == Field(offset, 9)
    ensures ReadBits(src, p, 8) == Ok((p + 8, offset / 2))
    ensures ReadBits(src, p + 8, 1) == Ok((p + 9, offset % 2))
  {
    var t := src.bits[p..p + 9];
    FieldSplit(offset, 9);
    FieldSplit(offset % 2, 1);
    assert src.bits[p..p + 8] == t[..8] == Field(offset / 2, 8);
    assert src.bits[p + 8..p + 9] == t[8..] == Field(offset % 2, 1);
    ReadField(src, p, offset / 2, 8);
    ReadField(src, p + 8, offset % 2, 1);
  }

  lemma Halves(a: seq<bit>, b: seq<bit>)
    ensures (a + b)[..|a|] == a
    ensures (a + b)[|a|..] == b
  {
  }

  lemma Op7Reverse(bytes: seq<byte>)
    requires bytes == [1, 2, 3, 4, 5, 6, 7, 8, 9]
    ensures Reverse(bytes) == [9, 8, 7, 6, 5, 4, 3, 2, 1]
  {
    var s: seq<byte> := [];
    assert Reverse(s) == [];
    ReverseSnoc(s, 1);
    s := s + [1];
    ReverseSnoc(s, 2);
    s := s + [2];
    ReverseSnoc(s, 3);
    s := s + [3];
    ReverseSnoc(s, 4);
    s := s + [4];
    ReverseSnoc(s, 5);
    s := s + [5];
    ReverseSnoc(s, 6);
    s := s + [6];
    ReverseSnoc(s, 7);
    s := s + [7];
    ReverseSnoc(s, 8);
    s := s + [8];
    ReverseSnoc(s, 9);
  }

  /** A sample holding exactly one step decompresses to the step's new bytes,
      turned around, in front of the target. */
  lemma OneStep(src: Source, target: seq<byte>, tail: seq<byte>)
    requires 0 < src.capacity == |src.bits|
    requires Step(src, 0, Reverse(target)) == Ok((|src.bits|, Reverse(target) + tail))
    ensures Decompress(src, 0, target) == Ok(Reverse(tail) + target)
  {
    var out := Reverse(target) + tail;
    assert Run(src, |src.bits|, out) == Ok(out);
    assert Run(src, 0, Reverse(target)) == Ok(out);
    ReverseAppend(Reverse(target), tail);
    ReverseReverse(target);
  }

  // The test vectors, on any source that delivers the sample's bits and whose
  // capacity is the sample's length (`ExampleSource` builds one from a sample).
  // Opcode 7: "111 00000000 00000001 ... 00001001" on an empty target.

  lemma Op7Example(src: Source, target: seq<byte>, bytes: seq<byte>)
    requires target == [] && bytes == [1, 2, 3, 4, 5, 6, 7, 8, 9]
    requires src.bits == Field(1, 1) + Field(3, 2) + Field(0, 8) + Fields(bytes)
    requires src.capacity == |src.bits|
    ensures Decompress(src, 0, target) == Ok([9, 8, 7, 6, 5, 4, 3, 2, 1])
  {
    assert src.bits[0..3] == Field(1, 1) + Field(3, 2) && src.bits[3..11] == Field(0, 8)
      && src.bits[11..83] == Fields(bytes) by {
      Middle(Field(1, 1) + Field(3, 2), Field(0, 8), Fields(bytes));
    }
    assert Reverse(target) == [];
    assert Step(src, 0, Reverse(target)) == Ok((83, Reverse(target) + bytes)) by {
      StepLiterals(src, 0, 0, bytes, []);
    }
    OneStep(src, target, bytes);
    Op7Reverse(bytes);
    assert Reverse(bytes) + target == [9, 8, 7, 6, 5, 4, 3, 2, 1];
  }

  // Opcode 1 ("01", eight-digit distance) and opcode 4 ("100", nine-digit
  // distance) on the target [1, 2, 3, 9, 7]; the new bytes appear in front.

  lemma Op1Example(src: Source, target: seq<byte>, offset: nat, tail: seq<byte>)
    requires offset < 256
    requires src.bits == Field(0, 1) + Field(1, 1) + Field(offset, 8)
    requires src.capacity == |src.bits|
    requires CopyBack(Reverse(target), offset, 2) == Ok(Reverse(target) + tail)
    ensures Decompress(src, 0, target) == Ok(Reverse(tail) + target)
  {
    assert src.bits[0..2] == Field(0, 1) + Field(1, 1) && src.bits[2..10] == Field(offset, 8) by {
      Halves(Field(0, 1) + Field(1, 1), Field(offset, 8));
    }
    assert Step(src, 0, Reverse(target)) == Ok((10, Reverse(target) + tail)) by {
      StepCopyTwo(src, 0, offset, Reverse(target));
    }
    OneStep(src, target, tail);
  }

  lemma Op4Example(src: Source, target: seq<byte>, offset: nat, tail: seq<byte>)
    requires offset < 512
    requires src.bits == Field(1, 1) + Field(0, 2) + Field(offset, 9)
    requires src.capacity == |src.bits|
    requires CopyBack(Reverse(target), offset, 3) == Ok(Reverse(target) + tail)
    ensures Decompress(src, 0, target) == Ok(Reverse(tail) + target)
  {
    assert src.bits[0..3] == Field(1, 1) + Field(0, 2) && src.bits[3..12] == Field(offset, 9) by {
      Halves(Field(1, 1) + Field(0, 2), Field(offset, 9));
    }
    assert Step(src, 0, Reverse(target)) == Ok((12, Reverse(target) + tail)) by {
      StepCopyThree(src, 0, offset, Reverse(target));
    }
    OneStep(src, target, tail);
  }

  /** Copies on the reversed target [7, 9, 3, 2, 1] that stay within it. */
  lemma CopyDistanceOne(target: seq<byte>)
    requires target == [1, 2, 3, 9, 7]
    ensures CopyBack(Reverse(target), 1, 2) == Ok(Reverse(target) + [2, 1])
  {
    var seed := Reverse(target);
    assert seed == [7, 9, 3, 2, 1];
    CopyBackSlice(seed, 1, 2);
    assert seed[3..5] == [2, 1];
  }

  lemma CopyDistanceFour(target: seq<byte>)
    requires target == [1, 2, 3, 9, 7]
    ensures CopyBack(Reverse(target), 4, 2) == Ok(Reverse(target) + [7, 9])
  {
    var seed := Reverse(target);
    assert seed == [7, 9, 3, 2, 1];
    CopyBackSlice(seed, 4, 2);
    assert seed[0..2] == [7, 9];
  }

  lemma CopyDistanceThree(target: seq<byte>)
    requires target == [1, 2, 3, 9, 7]
    ensures CopyBack(Reverse(target), 3, 3) == Ok(Reverse(target) + [9, 3, 2])
  {
    var seed := Reverse(target);
    assert seed == [7, 9, 3, 2, 1];
    assert seed[1..4] == [9, 3, 2];
    CopyBackSlice(seed, 3, 3);
  }

  /** Distance 0 repeats the last byte. */
  lemma CopyDistanceZero(target: seq<byte>, count: nat)
    requires target == [1, 2, 3, 9, 7] && 2 <= count <= 3
    ensures CopyBack(Reverse(target), 0, count) == Ok(Reverse(target) + seq(count, _ => 1))
  {
    var seed := Reverse(target);
    assert seed == [7, 9, 3, 2, 1];
    CopyBackRepeatsLast(seed, count);
    var out := CopyBack(seed, 0, count).value;
    assert out[..5] == seed;
    assert out == seed + seq(count, _ => 1);
  }

  /** Distance 1 with three copies overlaps the bytes being written. */
  lemma CopyOverlap(target: seq<byte>)
    requires target == [1, 2, 3, 9, 7]
    ensures CopyBack(Reverse(target), 1, 3) == Ok(Reverse(target) + [2, 1, 2])
  {
    var seed := Reverse(target);
    assert seed == [7, 9, 3, 2, 1];
    CopyBackRecurrence(seed, 1, 3);
    var out := CopyBack(seed, 1, 3).value;
    assert out[..5] == seed;
    assert out[5] == out[3] && out[6] == out[4] && out[7] == out[5];
    assert out == seed + [2, 1, 2];
  }

  lemma Op1DistanceOne(src: Source, target: seq<byte>)
    requires target == [1, 2, 3, 9, 7]
    requires src.bits == Field(0, 1) + Field(1, 1) + Field(1, 8)
    requires src.capacity == |src.bits|
    ensures Decompress(src, 0, target) == Ok([1, 2] + target)
  {
    CopyDistanceOne(target);
    Op1Example(src, target, 1, [2, 1]);
    assert Reverse([2, 1]) == [1, 2];
  }

  lemma Op1DistanceFour(src: Source, target: seq<byte>)
    requires target == [1, 2, 3, 9, 7]
    requires src.bits == Field(0, 1) + Field(1, 1) + Field(4, 8)
    requires src.capacity == |src.bits|
    ensures Decompress(src, 0, target) == Ok([9, 7] + target)
  {
    CopyDistanceFour(target);
    Op1Example(src, target, 4, [7, 9]);
    assert Reverse([7, 9]) == [9, 7];
  }

  lemma Op1DistanceZero(src: Source, target: seq<byte>)
    requires target == [1, 2, 3, 9, 7]
    requires src.bits == Field(0, 1) + Field(1, 1) + Field(0, 8)
    requires src.capacity == |src.bits|
    ensures Decompress(src, 0, target) == Ok([1, 1] + target)
  {
    CopyDistanceZero(target, 2);
    assert seq(2, _ => 1) == [1, 1];
    Op1Example(src, target, 0, [1, 1]);
    assert Reverse([1, 1]) == [1, 1];
  }

  lemma Op4DistanceThree(src: Source, target: seq<byte>)
    requires target == [1, 2, 3, 9, 7]
    requires src.bits == Field(1, 1) + Field(0, 2) + Field(3, 9)
    requires src.capacity == |src.bits|
    ensures Decompress(src, 0, target) == Ok([2, 3, 9] + target)
  {
    CopyDistanceThree(target);
    Op4Example(src, target, 3, [9, 3, 2]);
    assert Reverse([9, 3, 2]) == [2, 3, 9];
  }

  lemma Op4DistanceOne(src: Source, target: seq<byte>)
    requires target == [1, 2, 3, 9, 7]
    requires src.bits == Field(1, 1) + Field(0, 2) + Field(1, 9)
    requires src.capacity == |src.bits|
    ensures Decompress(src, 0, target) == Ok([2, 1, 2] + target)
  {
    CopyOverlap(target);
    Op4Example(src, target, 1, [2, 1, 2]);
    assert Reverse([2, 1, 2]) == [2, 1, 2];
  }

  lemma Op4DistanceZero(src: Source, target: seq<byte>)
    requires target == [1, 2, 3, 9, 7]
    requires src.bits == Field(1, 1) + Field(0, 2) + Field(0, 9)
    requires src.capacity == |src.bits|
    ensures Decompress(src, 0, target) == Ok([1, 1, 1] + target)
  {
    CopyDistanceZero(target, 3);
    assert seq(3, _ => 1) == [1, 1, 1];
    Op4Example(src, target, 0, [1, 1, 1]);
    assert Reverse([1, 1, 1]) == [1, 1, 1];
  }
}

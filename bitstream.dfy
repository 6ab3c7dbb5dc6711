/** The backward bit reader of the current revision
    (src/game_data/file/encoding/bitstream.rs). Bytes are consumed from the
    physically last byte towards the front and, within a byte, from the least
    significant bit upwards. The first byte consumed holds only
    `bitsInFirstByte` valid bits; every other byte holds eight. */
module Bitstream {
  import opened Wrappers
  import opened Bytes

  /** How many bits a fresh reader delivers before `consume` fails: all of them
      when the first-byte width is at most 8; with a wider first byte the ninth
      bit needs a shift of a `u8` by 8, which panics. */
  function Readable(buffer: seq<byte>, firstBits: nat): nat
  {
    if |buffer| == 0 then 0
    else if firstBits <= 8 then 8 * |buffer| - 8 + firstBits
    else 8
  }

  /** The error a reader reports once it has delivered `Readable` bits. */
  function Exhausted(buffer: seq<byte>, firstBits: nat): Error
  {
    if |buffer| > 0 && firstBits > 8 then Overflow else OutOfBounds
  }

  /** The `p`-th bit delivered by a reader over `buffer`. */
  function BitAt(buffer: seq<byte>, firstBits: nat, p: nat): bit
    requires p < Readable(buffer, firstBits)
  {
    if p < firstBits then Bit(buffer[|buffer| - 1], p)
    else Bit(buffer[|buffer| - 2 - (p - firstBits) / 8], (p - firstBits) % 8)
  }

  /** Every bit a reader over `buffer` delivers, in delivery order. */
  function Bits(buffer: seq<byte>, firstBits: nat): (s: seq<bit>)
    ensures |s| == Readable(buffer, firstBits)
    ensures forall p :: 0 <= p < |s| ==> s[p] == BitAt(buffer, firstBits, p)
  {
    seq(Readable(buffer, firstBits), p requires 0 <= p < Readable(buffer, firstBits) =>
      BitAt(buffer, firstBits, p))
  }

  /** The value `consume(n)` builds from `bits[p..p+n]`: each bit is shifted in at
      the bottom of a `u8`, so earlier bits are more significant and bits older
      than the last eight fall off the top. */
  function Take(bits: seq<bit>, p: nat, n: nat): byte
    requires p + n <= |bits|
  {
    if n == 0 then 0 else (2 * Take(bits, p, n - 1)) % 256 + bits[p + n - 1]
  }

  /** `(v << 1) | b` on a `u8`. */
  function ShiftIn(v: byte, b: bit): (r: byte)
    ensures r == (2 * v) % 256 + b
  {
    var shifted := (2 * v) % 256;
    assert shifted == (v % 128) * Pow2(1);
    OrDisjoint(v % 128, 1, b);
    Or(shifted, b)
  }

  lemma TakeNext(bits: seq<bit>, p: nat, n: nat)
    requires p + n < |bits|
    ensures Take(bits, p, n + 1) == ShiftIn(Take(bits, p, n), bits[p + n])
  {
  }

  /** `bits` read as a binary number, most significant bit first. */
  function MsbFirst(bits: seq<bit>): nat
  {
    if bits == [] then 0 else 2 * MsbFirst(bits[..|bits| - 1]) + bits[|bits| - 1]
  }

  lemma {:induction false} MsbFirstBound(bits: seq<bit>)
    ensures MsbFirst(bits) < Pow2(|bits|)
  {
    if bits != [] {
      MsbFirstBound(bits[..|bits| - 1]);
    }
  }

  /** `consume` keeps the last eight bits read, as a binary number. */
  lemma {:induction false} TakeIsMsbFirst(bits: seq<bit>, p: nat, n: nat)
    requires p + n <= |bits|
    ensures Take(bits, p, n) == MsbFirst(bits[p..p + n]) % 256
  {
    if n > 0 {
      TakeIsMsbFirst(bits, p, n - 1);
      var prefix := bits[p..p + n];
      assert prefix[..n - 1] == bits[p..p + n - 1];
      var m := MsbFirst(prefix[..n - 1]);
      assert MsbFirst(prefix) == 2 * m + bits[p + n - 1];
      DoubleMod(m, bits[p + n - 1]);
    }
  }

  /** Shifting in a bit commutes with dropping all but the low eight bits. */
  lemma DoubleMod(m: nat, b: nat)
    requires b < 2
    ensures (2 * (m % 256)) % 256 + b == (2 * m + b) % 256
  {
    var q := m / 256;
    var r := m % 256;
    assert 2 * m + b == 256 * (2 * q) + (2 * r + b);
    assert (2 * r) % 256 + b < 256;
    if r < 128 {
      assert (2 * m + b) % 256 == 2 * r + b;
    } else {
      assert 2 * m + b == 256 * (2 * q + 1) + (2 * r - 256 + b);
      assert (2 * m + b) % 256 == 2 * r - 256 + b;
    }
  }

  /** For `n <= 8` no bit is lost: the value is below `2^n`. */
  lemma TakeBound(bits: seq<bit>, p: nat, n: nat)
    requires p + n <= |bits| && n <= 8
    ensures Take(bits, p, n) < Pow2(n)
    ensures Take(bits, p, n) == MsbFirst(bits[p..p + n])
  {
    TakeIsMsbFirst(bits, p, n);
    MsbFirstBound(bits[p..p + n]);
    Pow2Monotone(n, 8);
  }

  /** The number of bits delivered by a reader at byte `k` (counted from the end)
      and bit `j` of that byte. */
  function PosOf(firstBits: nat, k: nat, j: nat): nat
  {
    if k == 0 then j else firstBits + 8 * (k - 1) + j
  }

  /** The index pairs a reader can be in between two calls: still in the first
      byte consumed, or in a later byte of a buffer whose first byte is at most
      8 bits wide. */
  predicate StateOk(buffer: seq<byte>, firstBits: nat, k: nat, j: nat)
  {
    || (k == 0 && j <= firstBits && j <= 8 && (|buffer| == 0 ==> j == 0))
    || (0 < k < |buffer| && j <= 8 && firstBits <= 8)
  }

  /** A reader never claims to have delivered more than it can. */
  lemma PosBound(buffer: seq<byte>, firstBits: nat, k: nat, j: nat)
    requires StateOk(buffer, firstBits, k, j)
    ensures PosOf(firstBits, k, j) <= Readable(buffer, firstBits)
  {
  }

  /** One iteration of the `consume` loop: moving on to the next byte when the
      current one is used up keeps the position; the read that follows fails
      exactly when every readable bit has been delivered, and otherwise yields
      the next bit of `Bits` and leaves the reader one bit further on. */
  lemma ConsumeStep(buffer: seq<byte>, firstBits: nat, k: nat, j: nat, k': nat, j': nat)
    requires StateOk(buffer, firstBits, k, j)
    requires if j >= (if k == 0 then firstBits else 8) then k' == k + 1 && j' == 0 else k' == k && j' == j
    ensures PosOf(firstBits, k', j') == PosOf(firstBits, k, j)
    ensures (|buffer| < k' + 1 || j' >= 8) <==> PosOf(firstBits, k, j) == Readable(buffer, firstBits)
    ensures |buffer| < k' + 1 ==> Exhausted(buffer, firstBits) == OutOfBounds
    ensures |buffer| >= k' + 1 && j' >= 8 ==> Exhausted(buffer, firstBits) == Overflow
    ensures |buffer| >= k' + 1 && j' < 8 ==>
      && Bit(buffer[|buffer| - k' - 1], j') == BitAt(buffer, firstBits, PosOf(firstBits, k, j))
      && StateOk(buffer, firstBits, k', j' + 1)
      && PosOf(firstBits, k', j' + 1) == PosOf(firstBits, k, j) + 1
  {
    var p := PosOf(firstBits, k, j);
    PosBound(buffer, firstBits, k, j);
    if |buffer| >= k' + 1 && j' < 8 && k' > 0 {
      assert p - firstBits == 8 * (k' - 1) + j';
      assert (p - firstBits) / 8 == k' - 1 && (p - firstBits) % 8 == j';
    }
  }

  /** A reader over a slice of a section's payload. */
  class Bitstream {
    const buffer: seq<byte>
    const bitsInFirstByte: nat
    var bitIndex: nat
    var byteIndex: nat

    /** The number of valid bits in the byte at `byteIndex` (counted from the end). */
    function Limit(k: nat): nat
      reads this
    {
      if k == 0 then bitsInFirstByte else 8
    }

    /** The number of bits delivered so far. */
    ghost function Pos(): (p: nat)
      reads this
      ensures StateOk(buffer, bitsInFirstByte, byteIndex, bitIndex) ==> p <= Readable(buffer, bitsInFirstByte)
    {
      PosOf(bitsInFirstByte, byteIndex, bitIndex)
    }

    ghost predicate Valid()
      reads this
    {
      StateOk(buffer, bitsInFirstByte, byteIndex, bitIndex)
    }

    /** `Bitstream::create` */
    constructor (buffer: seq<byte>, bitsInFirstByte: nat)
      ensures this.buffer == buffer && this.bitsInFirstByte == bitsInFirstByte
      ensures Valid() && Pos() == 0
    {
      this.buffer := buffer;
      this.bitsInFirstByte := bitsInFirstByte;
      bitIndex := 0;
      byteIndex := 0;
    }

    /** `remaining`: the source's expression over the indices. It needs a
        non-empty buffer, as `len * 8 - 8` underflows otherwise. */
    function Remaining(): (r: nat)
      reads this
      requires Valid() && |buffer| > 0
      ensures r + Pos() == 8 * |buffer| - 8 + bitsInFirstByte
      ensures bitsInFirstByte <= 8 ==> r == Readable(buffer, bitsInFirstByte) - Pos()
    {
      PosBound(buffer, bitsInFirstByte, byteIndex, bitIndex);
      (|buffer| * 8 - 8 + bitsInFirstByte) - bitIndex
        - if byteIndex > 0 then 8 * byteIndex - 8 + bitsInFirstByte else 0
    }

    /** One iteration of the `consume` loop: moves on to the next byte when the
        current one is used up, then delivers the next bit. It fails exactly when
        every readable bit has been delivered. */
    method NextBit() returns (r: Result<bit>)
      requires Valid()
      modifies this
      ensures if old(Pos()) < Readable(buffer, bitsInFirstByte)
        then r == Ok(BitAt(buffer, bitsInFirstByte, old(Pos()))) && Valid() && Pos() == old(Pos()) + 1
        else r == Err(Exhausted(buffer, bitsInFirstByte))
    {
      var k, j := byteIndex, bitIndex;
      if j >= Limit(k) {
        j := 0;
        k := k + 1;
      }
      ConsumeStep(buffer, bitsInFirstByte, byteIndex, bitIndex, k, j);
      bitIndex, byteIndex := j, k;
      if |buffer| < byteIndex + 1 {
        // `len - byte_index - 1` underflows: reading past the front
        return Err(OutOfBounds);
      }
      var current := buffer[|buffer| - byteIndex - 1];
      if bitIndex >= 8 {
        // a `u8` shifted by 8 or more: only a first byte wider than 8 bits gets here
        return Err(Overflow);
      }
      r := Ok(Bit(current, bitIndex));
      bitIndex := bitIndex + 1;
    }

    /** `consume(count)`: the next `count` bits, each shifted in at the bottom of
        the result. It fails exactly when fewer than `count` bits are left; the
        reader is not used after a failure. */
    method Consume(count: nat) returns (r: Result<byte>)
      requires Valid()
      modifies this
      ensures if old(Pos()) + count <= Readable(buffer, bitsInFirstByte)
        then r == Ok(Take(Bits(buffer, bitsInFirstByte), old(Pos()), count)) && Valid() && Pos() == old(Pos()) + count
        else r == Err(Exhausted(buffer, bitsInFirstByte))
    {
      ghost var bits := Bits(buffer, bitsInFirstByte);
      ghost var start := Pos();
      var value: byte := 0;
      var i := 0;
      while i < count
        invariant i <= count
        invariant Valid() && Pos() == start + i <= |bits|
        invariant value == Take(bits, start, i)
      {
        var next := ShiftNext(value, bits, start, i);
        if next.Err? {
          return Err(next.error);
        }
        value := next.value;
        i := i + 1;
      }
      return Ok(value);
    }

    /** The body of the `consume` loop: the next bit shifted in at the bottom
        of the `i` bits read so far. */
    method ShiftNext(value: byte, ghost bits: seq<bit>, ghost start: nat, ghost i: nat) returns (r: Result<byte>)
      requires Valid() && bits == Bits(buffer, bitsInFirstByte)
      requires Pos() == start + i && value == Take(bits, start, i)
      modifies this
      ensures if start + i < |bits|
        then r == Ok(Take(bits, start, i + 1)) && Valid() && Pos() == start + i + 1
        else r == Err(Exhausted(buffer, bitsInFirstByte))
    {
      var b := NextBit();
      if b.Err? {
        return Err(b.error);
      }
      assert b.value == bits[start + i];
      TakeNext(bits, start, i);
      return Ok(ShiftIn(value, b.value));
    }
  }

  /** The test vector of `bitstream_example_3`: 14 bits, read as one byte and six bits. */
  method ExampleThree() returns (before: nat, first: Result<byte>, middle: nat, second: Result<byte>, after: nat)
    ensures before == 14 && first == Ok(0xc7) && middle == 6 && second == Ok(0x2a) && after == 0
  {
    ExampleThreeBits();
    ExampleThreeValues();
    var reader := new Bitstream([0x57, 0xa3], 6);
    before := reader.Remaining();
    first := reader.Consume(8);
    middle := reader.Remaining();
    second := reader.Consume(6);
    after := reader.Remaining();
  }

  /** The test vector of `bitstream_example_3_parts`: the same 14 bits as 4 + 5 + 5. */
  method ExampleThreeParts() returns (a: Result<byte>, b: Result<byte>, c: Result<byte>, after: nat)
    ensures a == Ok(0x0c) && b == Ok(0x0f) && c == Ok(0x0a) && after == 0
  {
    ExampleThreeBits();
    ExampleThreeValues();
    var reader := new Bitstream([0x57, 0xa3], 6);
    a := reader.Consume(4);
    b := reader.Consume(5);
    c := reader.Consume(5);
    after := reader.Remaining();
  }

  /** The bits of `[0x57, 0xa3]` with a 6-bit first byte: six from `0xa3`, low bit
      first, then eight from `0x57`. */
  lemma ExampleThreeBits()
    ensures Bits([0x57, 0xa3], 6) == [1, 1, 0, 0, 0, 1, 1, 1, 1, 0, 1, 0, 1, 0]
  {
    var s := Bits([0x57, 0xa3], 6);
    forall p | 0 <= p < 14
      ensures s[p] == [1, 1, 0, 0, 0, 1, 1, 1, 1, 0, 1, 0, 1, 0][p]
    {
      if p < 6 {
        assert s[p] == Bit(0xa3, p);
        LowBitsA3(p);
      } else {
        assert s[p] == Bit(0x57, p - 6);
        LowBits57(p - 6);
      }
    }
  }

  lemma LowBitsA3(j: nat)
    requires j < 6
    ensures Bit(0xa3, j) == [1, 1, 0, 0, 0, 1][j]
  {
    if j == 0 {
    } else if j == 1 {
    } else if j == 2 {
    } else if j == 3 {
    } else if j == 4 {
    } else {
    }
  }

  lemma LowBits57(j: nat)
    requires j < 8
    ensures Bit(0x57, j) == [1, 1, 1, 0, 1, 0, 1, 0][j]
  {
    if j == 0 {
    } else if j == 1 {
    } else if j == 2 {
    } else if j == 3 {
    } else if j == 4 {
    } else if j == 5 {
    } else if j == 6 {
    } else {
    }
  }

  lemma ExampleThreeValues()
    ensures Take([1, 1, 0, 0, 0, 1, 1, 1, 1, 0, 1, 0, 1, 0], 0, 8) == 0xc7
    ensures Take([1, 1, 0, 0, 0, 1, 1, 1, 1, 0, 1, 0, 1, 0], 8, 6) == 0x2a
    ensures Take([1, 1, 0, 0, 0, 1, 1, 1, 1, 0, 1, 0, 1, 0], 0, 4) == 0x0c
    ensures Take([1, 1, 0, 0, 0, 1, 1, 1, 1, 0, 1, 0, 1, 0], 4, 5) == 0x0f
    ensures Take([1, 1, 0, 0, 0, 1, 1, 1, 1, 0, 1, 0, 1, 0], 9, 5) == 0x0a
  {
    var s: seq<bit> := [1, 1, 0, 0, 0, 1, 1, 1, 1, 0, 1, 0, 1, 0];
    assert Take(s, 0, 1) == 1;
    assert Take(s, 0, 2) == 3;
    assert Take(s, 0, 3) == 6;
    assert Take(s, 0, 4) == 12;
    assert Take(s, 0, 5) == 24;
    assert Take(s, 0, 6) == 49;
    assert Take(s, 0, 7) == 99;
    assert Take(s, 0, 8) == 199;
    assert Take(s, 8, 1) == 1;
    assert Take(s, 8, 2) == 2;
    assert Take(s, 8, 3) == 5;
    assert Take(s, 8, 4) == 10;
    assert Take(s, 8, 5) == 21;
    assert Take(s, 8, 6) == 42;
    assert Take(s, 0, 1) == 1;
    assert Take(s, 0, 2) == 3;
    assert Take(s, 0, 3) == 6;
    assert Take(s, 0, 4) == 12;
    assert Take(s, 4, 1) == 0;
    assert Take(s, 4, 2) == 1;
    assert Take(s, 4, 3) == 3;
    assert Take(s, 4, 4) == 7;
    assert Take(s, 4, 5) == 15;
    assert Take(s, 9, 1) == 0;
    assert Take(s, 9, 2) == 1;
    assert Take(s, 9, 3) == 2;
    assert Take(s, 9, 4) == 5;
    assert Take(s, 9, 5) == 10;
  }

  // The test-only encoder `create_from_example`: the bits of a sample, read back
  // to front, are packed most significant bit first into bytes; a trailing partial
  // byte becomes the first byte consumed.

  /** At most eight bits shifted one by one into a byte, as `gobble` does: bit
      `q` of the byte, counted from the bottom, is the `q`-th bit from the last
      one shifted in, and nothing lies above the bits shifted in. */
  function PackByte(bits: seq<bit>): (r: byte)
    requires |bits| <= 8
    ensures r < Pow2(|bits|)
    ensures forall q :: 0 <= q < |bits| ==> Bit(r, q) == bits[|bits| - 1 - q]
  {
    MsbFirstBound(bits);
    Pow2Monotone(|bits|, 8);
    assert forall q :: 0 <= q < |bits| ==> Bit(MsbFirst(bits), q) == bits[|bits| - 1 - q] by {
      forall q | 0 <= q < |bits| {
        BitOfMsbFirst(bits, q);
      }
    }
    MsbFirst(bits)
  }

  /** The bytes gobbled from `rs`: each group of eight bits in turn, and the
      trailing partial group, if any, as a last byte. */
  function Gobble(rs: seq<bit>): (r: seq<byte>)
    ensures |r| == (|rs| + 7) / 8
    decreases |rs|
  {
    if |rs| == 0 then []
    else if |rs| <= 8 then [PackByte(rs)]
    else [PackByte(rs[..8])] + Gobble(rs[8..])
  }

  /** `create_from_example` on the bits of a sample: the buffer and the first-byte width. */
  function FromBits(s: seq<bit>): (r: (seq<byte>, nat))
    ensures |r.0| == (|s| + 7) / 8
  {
    (Gobble(Reverse(s)), if |s| % 8 == 0 then 8 else |s| % 8)
  }

  lemma {:induction false} GobbleAt(rs: seq<bit>, i: nat)
    requires i < (|rs| + 7) / 8
    ensures 8 * i < |rs|
    ensures var e := if 8 * i + 8 <= |rs| then 8 * i + 8 else |rs|;
      Gobble(rs)[i] == MsbFirst(rs[8 * i..e])
    decreases |rs|
  {
    var e := if 8 * i + 8 <= |rs| then 8 * i + 8 else |rs|;
    if i == 0 {
      assert rs[0..e] == if |rs| <= 8 then rs else rs[..8];
    } else {
      assert Gobble(rs)[i] == Gobble(rs[8..])[i - 1];
      GobbleAt(rs[8..], i - 1);
      assert rs[8..][8 * (i - 1)..e - 8] == rs[8 * i..e];
    }
  }

  lemma {:induction false} BitOfMsbFirst(bits: seq<bit>, q: nat)
    requires q < |bits|
    ensures Bit(MsbFirst(bits), q) == bits[|bits| - 1 - q]
  {
    if q > 0 {
      BitOfMsbFirst(bits[..|bits| - 1], q - 1);
    }
  }

  /** Position `p` of the reader lands on bit `j` of byte `i`, which holds the
      reversed bits `e - 8 * i` before index `e`. */
  lemma FromBitsPosition(buffer: seq<byte>, n: nat, p: nat) returns (i: nat, j: nat, e: nat)
    requires p < n && |buffer| == (n + 7) / 8
    ensures e == if 8 * i + 8 <= n then 8 * i + 8 else n
    ensures i < (n + 7) / 8 && 8 * i + j < e && n - e + j == p
    ensures var firstBits := if n % 8 == 0 then 8 else n % 8;
      p < Readable(buffer, firstBits) && BitAt(buffer, firstBits, p) == Bit(buffer[i], j)
  {
    var firstBits := if n % 8 == 0 then 8 else n % 8;
    var len := (n + 7) / 8;
    assert n == 8 * (len - 1) + firstBits;
    if p < firstBits {
      i, j := len - 1, p;
      e := n;
    } else {
      var q, r := (p - firstBits) / 8, (p - firstBits) % 8;
      assert p - firstBits == 8 * q + r && q < len - 1;
      i, j := len - 2 - q, r;
      e := 8 * i + 8;
    }
  }

  /** Bit `j` of byte `i` of `Gobble(rs)` is the `j`-th bit from the end of its group. */
  lemma GobbleBit(rs: seq<bit>, i: nat, j: nat, e: nat)
    requires i < (|rs| + 7) / 8
    requires e == if 8 * i + 8 <= |rs| then 8 * i + 8 else |rs|
    requires 8 * i + j < e
    ensures Bit(Gobble(rs)[i], j) == rs[e - 1 - j]
  {
    GobbleAt(rs, i);
    var chunk := rs[8 * i..e];
    BitOfMsbFirst(chunk, j);
    assert chunk[|chunk| - 1 - j] == rs[e - 1 - j];
  }

  /** The encoded buffer can deliver exactly as many bits as it was given. */
  lemma FromBitsReadable(s: seq<bit>)
    ensures Readable(FromBits(s).0, FromBits(s).1) == |s|
  {
  }

  lemma BitAtFromBits(s: seq<bit>, p: nat)
    requires p < |s|
    ensures p < Readable(FromBits(s).0, FromBits(s).1)
    ensures BitAt(FromBits(s).0, FromBits(s).1, p) == s[p]
  {
    var rs := Reverse(s);
    var i, j, e := FromBitsPosition(Gobble(rs), |s|, p);
    GobbleBit(rs, i, j, e);
    assert rs[e - 1 - j] == s[p];
  }

  /** The reader delivers exactly the bits the example encoder was given, in order. */
  lemma FromBitsRoundTrip(s: seq<bit>)
    ensures Bits(FromBits(s).0, FromBits(s).1) == s
  {
    FromBitsReadable(s);
    forall p | 0 <= p < |s|
      ensures Bits(FromBits(s).0, FromBits(s).1)[p] == s[p]
    {
      BitAtFromBits(s, p);
    }
  }

  /** The vector of `bitstream_from_example_1`: the sample `10011` yields five bits,
      read as one number. */
  lemma FromExampleOne(s: seq<bit>)
    requires s == [1, 0, 0, 1, 1]
    ensures Readable(FromBits(s).0, FromBits(s).1) == 5
    ensures Take(Bits(FromBits(s).0, FromBits(s).1), 0, 5) == 0x13
  {
    FromBitsRoundTrip(s);
    ExampleOneValues();
  }

  lemma ExampleOneValues()
    ensures Take([1, 0, 0, 1, 1], 0, 5) == 0x13
  {
    var s: seq<bit> := [1, 0, 0, 1, 1];
    assert Take(s, 0, 1) == 1;
    assert Take(s, 0, 2) == 2;
    assert Take(s, 0, 3) == 4;
    assert Take(s, 0, 4) == 9;
    assert Take(s, 0, 5) == 19;
  }

  /** The vector of `bitstream_from_example_3`: the sample `01 10010011` yields ten
      bits, read as two and then eight. */
  lemma FromExampleThree(s: seq<bit>)
    requires s == [0, 1, 1, 0, 0, 1, 0, 0, 1, 1]
    ensures Readable(FromBits(s).0, FromBits(s).1) == 10
    ensures Take(Bits(FromBits(s).0, FromBits(s).1), 0, 2) == 0x01
    ensures Take(Bits(FromBits(s).0, FromBits(s).1), 2, 8) == 0x93
  {
    FromBitsRoundTrip(s);
    ExampleThreeSampleValues();
  }

  lemma ExampleThreeSampleValues()
    ensures Take([0, 1, 1, 0, 0, 1, 0, 0, 1, 1], 0, 2) == 0x01
    ensures Take([0, 1, 1, 0, 0, 1, 0, 0, 1, 1], 2, 8) == 0x93
  {
    var s: seq<bit> := [0, 1, 1, 0, 0, 1, 0, 0, 1, 1];
    assert Take(s, 0, 1) == 0;
    assert Take(s, 0, 2) == 1;
    assert Take(s, 2, 1) == 1;
    assert Take(s, 2, 2) == 2;
    assert Take(s, 2, 3) == 4;
    assert Take(s, 2, 4) == 9;
    assert Take(s, 2, 5) == 18;
    assert Take(s, 2, 6) == 36;
    assert Take(s, 2, 7) == 73;
    assert Take(s, 2, 8) == 147;
  }
}

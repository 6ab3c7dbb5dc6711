/** Offset-threading byte and word readers of the current revision
    (src/game_data/file/read.rs). Every reader returns the value read and the
    offset just past it. The word readers are named after the opposite of the
    byte order they implement: `read_word_be` is little-endian and `read_word_le`
    is big-endian. */
module Read {
  import opened Wrappers
  import opened Bytes

  /** `read_byte`: the byte at `offset`, or an error past the end. */
  function ReadByte(buffer: seq<byte>, offset: nat): (r: Result<(byte, nat)>)
    ensures r.Ok? <==> offset < |buffer|
    ensures r.Ok? ==> r.value.0 == buffer[offset] && r.value.1 == offset + 1
    ensures r.Err? ==> r.error == OutOfBounds
  {
    if offset < |buffer| then Ok((buffer[offset], offset + 1)) else Err(OutOfBounds)
  }

  /** `read_word_be`: `b[o] | b[o+1] << 8`. */
  function ReadWordBe(buffer: seq<byte>, offset: nat): (r: Result<(nat, nat)>)
    ensures r.Ok? <==> offset + 1 < |buffer|
    ensures r.Ok? ==> r.value.0 == buffer[offset] as int + 256 * (buffer[offset + 1] as int)
    ensures r.Ok? ==> r.value.0 < 65536 && r.value.1 == offset + 2
    ensures r.Err? ==> r.error == OutOfBounds
  {
    var lo :- ReadByte(buffer, offset);
    var hi :- ReadByte(buffer, offset + 1);
    OrDisjoint(hi.0, 8, lo.0);
    Ok((Or(lo.0, hi.0 * 256), offset + 2))
  }

  /** `read_word_le`: `b[o+1] | b[o] << 8`; the byte at `o + 1` is fetched first. */
  function ReadWordLe(buffer: seq<byte>, offset: nat): (r: Result<(nat, nat)>)
    ensures r.Ok? <==> offset + 1 < |buffer|
    ensures r.Ok? ==> r.value.0 == 256 * (buffer[offset] as int) + buffer[offset + 1] as int
    ensures r.Ok? ==> r.value.0 < 65536 && r.value.1 == offset + 2
    ensures r.Err? ==> r.error == OutOfBounds
  {
    var lo :- ReadByte(buffer, offset + 1);
    // `offset` lies below `offset + 1`, so the second read cannot fail
    var hi := ReadByte(buffer, offset).value;
    OrDisjoint(hi.0, 8, lo.0);
    Ok((Or(lo.0, hi.0 * 256), offset + 2))
  }

  /** Exchanges the two bytes of a 16-bit word. */
  function Swap16(w: nat): nat
    requires w < 65536
  {
    (w % 256) * 256 + w / 256
  }

  /** The two word readers succeed on the same offsets and read byte-swapped values. */
  lemma WordReadersSwapped(buffer: seq<byte>, offset: nat)
    ensures ReadWordLe(buffer, offset).Ok? == ReadWordBe(buffer, offset).Ok?
    ensures ReadWordBe(buffer, offset).Ok? ==>
      ReadWordLe(buffer, offset).value.0 == Swap16(ReadWordBe(buffer, offset).value.0)
  {
  }
}

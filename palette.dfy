/** VGA palette entries (src/game_data/file/palette.rs): the file stores 6-bit
    components, expanded to 8 bits by replicating the top bits into the bottom. */
module Palette {
  import opened Wrappers
  import opened Bytes
  import Read

  /** `PaletteEntry`: red, green and blue intensity. */
  datatype Rgb = Rgb(r: byte, g: byte, b: byte)

  const PaletteSize: nat := 16

  /** One component of `expand_rgb6_to8`: `(c << 2) | (c >> 4)` in `u8`, so the
      left shift drops the top bits of an input of 64 or more. */
  function Expand6To8(c: byte): (e: byte)
    ensures c < 64 ==> e == 4 * c + c / 16
    ensures c < 64 ==> e / 4 == c && e % 4 == c / 16
  {
    ShiftOrBound(c);
    if c < 64 then ShiftOrDisjoint(c); Or((4 * c) % 256, c / 16)
    else Or((4 * c) % 256, c / 16)
  }

  lemma ShiftOrBound(c: byte)
    ensures Or((4 * c) % 256, c / 16) < 256
  {
    Pow2Eight();
    OrBound((4 * c) % 256, c / 16, 8);
  }

  lemma ShiftOrDisjoint(c: byte)
    requires c < 64
    ensures Or((4 * c) % 256, c / 16) == 4 * c + c / 16
  {
    var shifted: nat := 4 * c;
    assert shifted < 256;
    assert Pow2(2) == 4;
    OrDisjoint(c, 2, c / 16);
    assert c * Pow2(2) == shifted;
    assert shifted % 256 == shifted;
  }

  function ExpandRgb6To8(r: byte, g: byte, b: byte): (e: Rgb)
  {
    Rgb(Expand6To8(r), Expand6To8(g), Expand6To8(b))
  }

  /** The expansion fixes black and maps full 6-bit intensity to full 8-bit intensity. */
  lemma ExpandEndpoints()
    ensures Expand6To8(0) == 0 && Expand6To8(0x3f) == 0xff
  {
  }

  /** On 6-bit inputs the expansion is strictly increasing, hence injective. */
  lemma ExpandMonotone(c1: byte, c2: byte)
    requires c1 < c2 < 64
    ensures Expand6To8(c1) < Expand6To8(c2)
  {
  }

  /** For every byte, the shift keeps only the low six bits of `c`, so the two top
      bits of `c` resurface only through `c >> 4`. */
  lemma ExpandTruncates(c: byte)
    ensures Expand6To8(c) / 4 == Or(c % 64, c / 64)
    ensures Expand6To8(c) % 4 == (c / 16) % 4
  {
    // bits 2..7 of the result are bits 0..5 of `c` OR-ed with bits 2..3 of `c / 16`
    ExpandSplit(c);
    OrDivide(c % 64, c / 64, (c / 16) % 4);
  }

  /** The two operands of the OR in `Expand6To8`, split at bit 2. */
  lemma ExpandSplit(c: byte)
    ensures Expand6To8(c) == Or(4 * (c % 64), 4 * (c / 64) + (c / 16) % 4)
  {
    ShiftSplit(c);
  }

  lemma ShiftSplit(c: nat)
    ensures (4 * c) % 256 == 4 * (c % 64) && c / 16 == 4 * (c / 64) + (c / 16) % 4
  {
  }

  /** `(4a) | (4b + l) == 4 * (a | b) + l` for `l < 4`. */
  lemma OrDivide(a: nat, b: nat, l: nat)
    requires l < 4
    ensures Or(4 * a, 4 * b + l) / 4 == Or(a, b)
    ensures Or(4 * a, 4 * b + l) % 4 == l
  {
    assert 4 * a == 2 * (2 * a);
    OrShift(2 * a, 2 * b + l / 2, l % 2);
    OrShift(a, b, l / 2);
    assert 4 * b + l == 2 * (2 * b + l / 2) + l % 2;
  }

  lemma OrShift(a: nat, b: nat, l: nat)
    requires l < 2
    ensures Or(2 * a, 2 * b + l) == 2 * Or(a, b) + l
  {
    if 2 * a + 2 * b + l == 0 {
      assert Or(0, 0) == 0;
    }
  }

  /** `read_palette_entry`: three consecutive 6-bit components. */
  function ReadPaletteEntry(buffer: seq<byte>, offset: nat): (r: Result<(Rgb, nat)>)
    ensures r.Ok? <==> offset + 3 <= |buffer|
    ensures r.Ok? ==> r.value.1 == offset + 3
    ensures r.Err? ==> r.error == OutOfBounds
    ensures r.Ok? ==>
      r.value.0 == ExpandRgb6To8(buffer[offset], buffer[offset + 1], buffer[offset + 2])
  {
    var r :- Read.ReadByte(buffer, offset);
    var g :- Read.ReadByte(buffer, r.1);
    var b :- Read.ReadByte(buffer, g.1);
    Ok((ExpandRgb6To8(r.0, g.0, b.0), b.1))
  }

  /** `LOWER_PALETTE_FIXED`: the seven colours every level palette starts with,
      black and then six 6-bit colours expanded to 8 bits (a dark blue, a green, a
      light pink, an olive, a red and a mid grey). The table holds the expanded
      values; the lemmas below prove each is the expansion the source writes. */
  const LowerPaletteFixed: seq<Rgb> := [
    Rgb(0, 0, 0),
    Rgb(0x41, 0x41, 0xe3),
    Rgb(0x00, 0xb2, 0x00),
    Rgb(0xf3, 0xd3, 0xd3),
    Rgb(0xb2, 0xb2, 0x00),
    Rgb(0xf3, 0x20, 0x20),
    Rgb(0x82, 0x82, 0x82)
  ]

  lemma LowerPaletteFixedCool()
    ensures LowerPaletteFixed[1] == ExpandRgb6To8(0x10, 0x10, 0x38)
    ensures LowerPaletteFixed[2] == ExpandRgb6To8(0x00, 0x2c, 0x00)
  {
  }

  lemma LowerPaletteFixedWarm()
    ensures LowerPaletteFixed[3] == ExpandRgb6To8(0x3c, 0x34, 0x34)
    ensures LowerPaletteFixed[4] == ExpandRgb6To8(0x2c, 0x2c, 0x00)
  {
  }

  lemma LowerPaletteFixedRedGrey()
    ensures LowerPaletteFixed[5] == ExpandRgb6To8(0x3c, 0x08, 0x08)
    ensures LowerPaletteFixed[6] == ExpandRgb6To8(0x20, 0x20, 0x20)
  {
  }
}

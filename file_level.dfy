/** The older level decoder of src/file/level.rs. It reads the same record as
    the current one, with two differences: tile y is sign-extended by an XOR and
    a wrapping add instead of two shifts, and only seven skill counts are read. */
module FileLevel {
  import opened Wrappers
  import opened Bytes
  import Level

  /** `read16`: `read8(o) << 8 | read8(o + 1)`, the same as the current `read16`. */
  function Read16(data: seq<byte>, offset: nat): (r: Result<nat>)
    ensures r == Level.Read16(data, offset)
  {
    var hi :- Level.Read8(data, offset);
    var lo :- Level.Read8(data, offset + 1);
    Pow2Eight();
    OrDisjoint(hi, 8, lo);
    Ok(Or(hi * 256, lo))
  }

  /** `u32::wrapping_add`. */
  function WrappingAdd32(a: nat, b: nat): (r: nat)
    requires a < 0x1_0000_0000 && b < 0x1_0000_0000
    ensures r == (a + b) % 0x1_0000_0000
  {
    if a + b >= 0x1_0000_0000 then a + b - 0x1_0000_0000 else a + b
  }

  /** Tile y from the two bytes of the second word:
      `(((y0 << 1) | (y1 >> 7)) ^ 0x100).wrapping_add(0xffffff00) as i32 - 4` on `u32`. */
  function TileY(y0: byte, y1: byte): int
  {
    assert Pow2(1) == 2;
    OrDisjoint(y0, 1, y1 / 128);
    Pow2Eight();
    XorTopBit(Or(y0 * 2, y1 / 128), 8);
    Level.AsI32(WrappingAdd32(Xor(Or(y0 * 2, y1 / 128), 256), 0xffff_ff00)) - 4
  }

  /** Flipping bit 8 of a 9-bit value and adding 0xffffff00 modulo 2^32 is
      9-bit sign extension, once the result is read as `i32`. */
  lemma WrapSignExtend(t: nat)
    requires t < 512
    ensures Xor(t, 256) < 512 && Level.AsI32(WrappingAdd32(Xor(t, 256), 0xffff_ff00)) == Level.SignExtend9(t)
  {
    Pow2Eight();
    XorTopBit(t, 8);
  }

  /** The XOR-and-add sign extension equals the current two-shift one for every
      16-bit word. */
  lemma TileYAgrees(y0: byte, y1: byte)
    ensures TileY(y0, y1) == Level.TileY(256 * y0 + y1)
  {
    assert Pow2(1) == 2;
    OrDisjoint(y0, 1, y1 / 128);
    var t := 2 * y0 + y1 / 128;
    assert Or(y0 * 2, y1 / 128) == t;
    assert t == (256 * y0 + y1) / 128;
    WrapSignExtend(t);
  }

  /** `read_terrain_tile`. */
  function TileAt(data: seq<byte>, index: nat): (r: Result<Option<Level.TerrainTile>>)
    ensures index >= Level.TerrainSlotCount ==> r == Err(BadIndex)
  {
    if index >= Level.TerrainSlotCount then Err(BadIndex)
    else
      var xAndFlags :- Read16(data, 0x120 + 4 * index);
      if xAndFlags == 0xffff then Ok(None)
      else
        var flags := xAndFlags / 4096;
        var y0 :- Level.Read8(data, 0x122 + 4 * index);
        var y1 :- Level.Read8(data, 0x123 + 4 * index);
        Ok(Some(Level.TerrainTile(
          x := xAndFlags % 4096 - 16,
          y := TileY(y0, y1),
          id := y1 % 64,
          doNotOverwrite := Bit(flags, 3) == 1,
          flipY := Bit(flags, 2) == 1,
          removeTerrain := Bit(flags, 1) == 1)))
  }

  /** Every terrain slot of every buffer decodes as in the current revision,
      errors included. */
  lemma TileAgrees(data: seq<byte>, index: nat)
    ensures TileAt(data, index) == Level.TileAt(data, index)
  {
    if index < Level.TerrainSlotCount && 0x123 + 4 * index < |data| {
      var w := Level.Word(data, 0x120 + 4 * index);
      if w != 0xffff {
        SecondWord(data, 0x122 + 4 * index);
      }
    }
  }

  /** The second word of a slot in terms of its two bytes: its tile y and id. */
  lemma SecondWord(data: seq<byte>, offset: nat)
    requires offset + 1 < |data|
    ensures TileY(data[offset], data[offset + 1]) == Level.TileY(Level.Word(data, offset))
    ensures data[offset + 1] % 64 == Level.Word(data, offset) % 64
  {
    var y0: nat := data[offset];
    var y1: nat := data[offset + 1];
    assert Level.Word(data, offset) == 256 * y0 + y1;
    TileYAgrees(y0, y1);
    LowSixBits(y0, y1);
  }

  lemma LowSixBits(y0: nat, y1: nat)
    ensures (256 * y0 + y1) % 64 == y1 % 64
  {
    assert 256 * y0 + y1 == 64 * (4 * y0) + y1;
  }

  /** `Level::decode` as a function of the record. Its object loop and
      `read_object` are those of the current revision. */
  function LevelOf(data: seq<byte>): (r: Result<Level.Level>)
    ensures r.Ok? <==> |data| == Level.LevelSize
    ensures r.Ok? ==> |r.value.parameters.skills| == 8 && r.value.parameters.skills[7] == 0
  {
    if |data| != Level.LevelSize then Err(BadLength)
    else
      TilesAgree(data, Level.TerrainSlotCount);
      Ok(Level.Level(Level.ParametersOf(data, Level.NameOffset, 7).value,
        Level.Word(data, 0x18), Level.Word(data, 0x1a), Level.Word(data, 0x1c),
        Level.Present(TileSlots(data, Level.TerrainSlotCount)).value, Level.Objects(data, Level.ObjectSlotCount).value))
  }

  /** The terrain slots below `n`, decoded by the older `read_terrain_tile`. */
  function TileSlots(data: seq<byte>, n: nat): (r: seq<Result<Option<Level.TerrainTile>>>)
    ensures |r| == n && forall i :: 0 <= i < n ==> r[i] == TileAt(data, i)
  {
    seq(n, i requires 0 <= i < n => TileAt(data, i))
  }

  /** The older terrain table is the current one, slot by slot. */
  lemma TilesAgree(data: seq<byte>, n: nat)
    ensures TileSlots(data, n) == Level.TileSlots(data, n)
    ensures Level.Present(TileSlots(data, n)) == Level.Tiles(data, n)
  {
    forall i | 0 <= i < n
      ensures TileSlots(data, n)[i] == Level.TileSlots(data, n)[i]
    {
      TileAgrees(data, i);
    }
  }

  /** Reading seven skill counts instead of eight leaves the parameter block as
      it is, except for a 0 as the eighth count. */
  lemma ParametersAgree(data: seq<byte>, nameOffset: nat)
    ensures Level.ParametersOf(data, nameOffset, 7).Ok? <==> Level.ParametersOf(data, nameOffset, 8).Ok?
    ensures Level.ParametersOf(data, nameOffset, 8).Ok? ==>
      var current := Level.ParametersOf(data, nameOffset, 8).value;
      Level.ParametersOf(data, nameOffset, 7).value == current.(skills := current.skills[7 := 0])
  {
    if Level.ParametersOf(data, nameOffset, 8).Ok? {
      var older := Level.Skills(data, 7).value;
      var newer := Level.Skills(data, 8).value;
      assert newer == older + [newer[7]];
      assert older + [0] == newer[7 := 0];
    }
  }

  /** The older decoder accepts exactly the records the current one accepts and
      decodes them alike, except that the eighth skill count (diggers) is 0. */
  lemma LevelAgrees(data: seq<byte>)
    ensures LevelOf(data).Ok? == Level.LevelOf(data).Ok?
    ensures LevelOf(data).Ok? ==>
      var current := Level.LevelOf(data).value;
      LevelOf(data).value == current.(parameters := current.parameters.(skills := current.parameters.skills[7 := 0]))
  {
    if |data| == Level.LevelSize {
      TilesAgree(data, Level.TerrainSlotCount);
      ParametersAgree(data, Level.NameOffset);
    }
  }
}

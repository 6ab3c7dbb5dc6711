/** The older tile-set metadata reader of src/file/ground.rs. The layout is the
    current one; the object and terrain records go through its own `read_word`,
    which is the little-endian `read_word_be` of the current revision, so the
    records decode alike (`ReadWord` below). The palettes differ: a colour
    component is the 6-bit value shifted left by two in `usize`, with neither the
    low-bit fill of `expand_rgb6_to8` nor truncation to 8 bits, and the seven
    fixed colours come from a `PALETTE_FIXED` table that is not part of this
    model, so it is a parameter here. */
module FileGround {
  import opened Wrappers
  import opened Bytes
  import Read
  import Palette
  import Ground

  /** A palette entry of this revision: three `usize` components. */
  datatype Entry = Entry(r: nat, g: nat, b: nat)

  datatype Palettes = Palettes(custom: seq<Entry>, standard: seq<Entry>, preview: seq<Entry>)

  datatype Content = Content(objectInfo: seq<Ground.ObjectInfo>, terrainInfo: seq<Ground.TerrainInfo>, palettes: Palettes)

  /** `read_word`: `b[o] | b[o+1] << 8` in `u16`; its `read_byte` is the current one. */
  function ReadWord(buffer: seq<byte>, offset: nat): (r: Result<(nat, nat)>)
    ensures r == Read.ReadWordBe(buffer, offset)
  {
    var lo :- Read.ReadByte(buffer, offset);
    var hi :- Read.ReadByte(buffer, offset + 1);
    OrDisjoint(hi.0, 8, lo.0);
    Ok((Or(lo.0, hi.0 * 256), offset + 2))
  }

  /** `read_palette_entry`: each component shifted left by two, without the low-bit fill. */
  function ReadPaletteEntry(buffer: seq<byte>, offset: nat): (r: Result<(Entry, nat)>)
    ensures r.Ok? <==> offset + 3 <= |buffer|
    ensures r.Err? ==> r.error == OutOfBounds
    ensures r.Ok? ==> r.value == (Entry(4 * (buffer[offset] as nat), 4 * (buffer[offset + 1] as nat), 4 * (buffer[offset + 2] as nat)), offset + 3)
  {
    var r :- Read.ReadByte(buffer, offset);
    var g :- Read.ReadByte(buffer, r.1);
    var b :- Read.ReadByte(buffer, g.1);
    Ok((Entry(r.0 as nat * 4, g.0 as nat * 4, b.0 as nat * 4), b.1))
  }

  /** Stored colour `k` (0..7) of the palette at `offset`. */
  function UpperEntry(buffer: seq<byte>, offset: nat, k: nat): Entry
    requires offset + 3 * k + 3 <= |buffer|
  {
    Entry(4 * (buffer[offset + 3 * k] as nat), 4 * (buffer[offset + 3 * k + 1] as nat), 4 * (buffer[offset + 3 * k + 2] as nat))
  }

  /** A palette of this revision: the first seven entries of `fixed`, colours
      8..15 from the 24 bytes at `offset`, colour 7 a copy of colour 8. */
  function PaletteOf(fixed: seq<Entry>, buffer: seq<byte>, offset: nat): (r: Result<(seq<Entry>, nat)>)
    requires |fixed| >= 7
    ensures r.Ok? <==> offset + 24 <= |buffer|
    ensures r.Err? ==> r.error == OutOfBounds
    ensures r.Ok? ==> r.value.1 == offset + 24 && |r.value.0| == Palette.PaletteSize
    ensures r.Ok? ==> r.value.0[..7] == fixed[..7] && r.value.0[7] == r.value.0[8]
    ensures r.Ok? ==> forall k :: 0 <= k < 8 ==> r.value.0[8 + k] == UpperEntry(buffer, offset, k)
  {
    if |buffer| < offset + 24 then Err(OutOfBounds)
    else
      var upper := seq(8, k requires 0 <= k < 8 => UpperEntry(buffer, offset, k));
      Ok((fixed[..7] + [upper[0]] + upper, offset + 24))
  }

  /** `read_palette`. */
  method ReadPalette(fixed: seq<Entry>, buffer: seq<byte>, offset: nat) returns (r: Result<(seq<Entry>, nat)>)
    requires |fixed| >= 7
    ensures r == PaletteOf(fixed, buffer, offset)
  {
    var palette := new Entry[Palette.PaletteSize](_ => Entry(0, 0, 0));
    var cursor := offset;
    for i := 0 to 7
      invariant palette[..i] == fixed[..i]
    {
      palette[i] := fixed[i];
    }
    for i := 8 to 16
      invariant palette[..7] == fixed[..7]
      invariant cursor == offset + 3 * (i - 8) && (i == 8 || cursor <= |buffer|)
      invariant forall k :: 8 <= k < i ==> palette[k] == UpperEntry(buffer, offset, k - 8)
    {
      var entry := ReadPaletteEntry(buffer, cursor);
      if entry.Err? {
        return Err(entry.error);
      }
      var colour := entry.value.0;
      assert colour == UpperEntry(buffer, offset, i - 8);
      palette[i] := colour;
      cursor := entry.value.1;
    }
    palette[7] := palette[8];
    r := Ok((palette[..], cursor));
    assert palette[..] == PaletteOf(fixed, buffer, offset).value.0;
  }

  /** The three palettes after the 24 unused bytes at `offset`. */
  function PalettesOf(fixed: seq<Entry>, buffer: seq<byte>, offset: nat): (r: Result<(Palettes, nat)>)
    requires |fixed| >= 7
    ensures r.Ok? <==> offset + Ground.PalettesSize <= |buffer|
    ensures r.Err? ==> r.error == OutOfBounds
    ensures r.Ok? ==> r.value.1 == offset + Ground.PalettesSize
    ensures r.Ok? ==> r.value.0 == Palettes(PaletteOf(fixed, buffer, offset + 24).value.0,
      PaletteOf(fixed, buffer, offset + 48).value.0, PaletteOf(fixed, buffer, offset + 72).value.0)
  {
    if |buffer| < offset + Ground.PalettesSize then Err(OutOfBounds)
    else
      Ok((Palettes(PaletteOf(fixed, buffer, offset + 24).value.0,
        PaletteOf(fixed, buffer, offset + 48).value.0, PaletteOf(fixed, buffer, offset + 72).value.0), offset + Ground.PalettesSize))
  }

  /** `read_palettes`. */
  method ReadPalettes(fixed: seq<Entry>, buffer: seq<byte>, offset: nat) returns (r: Result<(Palettes, nat)>)
    requires |fixed| >= 7
    ensures r == PalettesOf(fixed, buffer, offset)
  {
    var custom := ReadPalette(fixed, buffer, offset + 24);
    if custom.Err? {
      return Err(custom.error);
    }
    var standard := ReadPalette(fixed, buffer, custom.value.1);
    if standard.Err? {
      return Err(standard.error);
    }
    var preview := ReadPalette(fixed, buffer, standard.value.1);
    if preview.Err? {
      return Err(preview.error);
    }
    return Ok((Palettes(custom.value.0, standard.value.0, preview.value.0), preview.value.1));
  }

  /** A ground file of this revision decodes iff it has exactly 1056 bytes. */
  function ContentOf(fixed: seq<Entry>, data: seq<byte>): (r: Result<Content>)
    requires |fixed| >= 7
    ensures r.Ok? <==> |data| == Ground.GroundSize
    ensures r.Ok? ==> |r.value.objectInfo| == Ground.ObjectsPerTileset && |r.value.terrainInfo| == Ground.TilesPerTileset
  {
    if |data| < Ground.GroundSize then Err(OutOfBounds)
    else if |data| > Ground.GroundSize then Err(SizeMismatch)
    else Ok(Content(Ground.ObjectInfos(data, Ground.ObjectsPerTileset), Ground.TerrainInfos(data, Ground.TilesPerTileset),
      PalettesOf(fixed, data, Ground.PalettesBase).value.0))
  }

  /** The body of `read` on the file's bytes: records pushed onto vectors with a
      running offset, the palettes, and the check that nothing is left. The
      conversions of the vectors to arrays cannot fail: exactly 16 and 64
      records are pushed. */
  method ReadContent(fixed: seq<Entry>, data: seq<byte>) returns (r: Result<Content>)
    requires |fixed| >= 7
    ensures r == ContentOf(fixed, data)
  {
    var offset := 0;
    var objectInfo: seq<Ground.ObjectInfo> := [];
    for i := 0 to Ground.ObjectsPerTileset
      invariant offset == Ground.ObjectInfoSize * i <= |data|
      invariant objectInfo == Ground.ObjectInfos(data, i)
    {
      var read := Ground.ReadObjectInfo(data, offset);
      if read.Err? {
        return Err(read.error);
      }
      Ground.ObjectInfosNext(data, i);
      objectInfo := objectInfo + [read.value.0];
      offset := read.value.1;
    }
    var terrainInfo: seq<Ground.TerrainInfo> := [];
    for i := 0 to Ground.TilesPerTileset
      invariant offset == Ground.TerrainBase + Ground.TerrainInfoSize * i
      invariant i == 0 || offset <= |data| + 2
      invariant terrainInfo == Ground.TerrainInfos(data, i)
    {
      var read := Ground.ReadTerrainInfo(data, offset);
      if read.Err? {
        return Err(read.error);
      }
      Ground.TerrainInfosNext(data, i);
      terrainInfo := terrainInfo + [read.value.0];
      offset := read.value.1;
    }
    assert offset == Ground.PalettesBase;
    var palettes := ReadPalettes(fixed, data, offset);
    if palettes.Err? {
      return Err(palettes.error);
    }
    if palettes.value.1 != |data| {
      return Err(SizeMismatch);
    }
    return Ok(Content(objectInfo, terrainInfo, palettes.value.0));
  }

  /** The current colour of an entry of this revision: undo the shift, then
      expand. The `% 256` never changes a component read from a file, which is
      below 1024. */
  function Current(e: Entry): Palette.Rgb
  {
    Palette.ExpandRgb6To8((e.r / 4) % 256, (e.g / 4) % 256, (e.b / 4) % 256)
  }

  /** A stored component reads alike in both revisions exactly when it is below
      16: from 16 on the current expansion fills the low bits, and from 64 on the
      shift of this revision leaves the byte range. */
  lemma ComponentAgrees(c: byte)
    ensures 4 * c == Palette.Expand6To8(c) as int <==> c < 16
  {
    if c >= 64 {
      assert Palette.Expand6To8(c) < 256 <= 4 * c;
    }
  }

  /** Stored colours of this revision map to the current ones through `Current`. */
  lemma UpperEntryAgrees(buffer: seq<byte>, offset: nat, k: nat)
    requires offset + 3 * k + 3 <= |buffer|
    ensures var e := UpperEntry(buffer, offset, k);
      e.r < 1024 && e.g < 1024 && e.b < 1024 && Current(e) == Ground.UpperEntry(buffer, offset, k)
  {
    var e := UpperEntry(buffer, offset, k);
    var o := offset + 3 * k;
    assert (e.r / 4) % 256 == buffer[o];
    assert (e.g / 4) % 256 == buffer[o + 1];
    assert (e.b / 4) % 256 == buffer[o + 2];
  }

  /** Colours 7..15 of a palette of this revision map to the current ones. */
  lemma PaletteAgrees(fixed: seq<Entry>, buffer: seq<byte>, offset: nat)
    requires |fixed| >= 7
    ensures PaletteOf(fixed, buffer, offset).Ok? == Ground.PaletteOf(buffer, offset).Ok?
    ensures PaletteOf(fixed, buffer, offset).Ok? ==>
      var older := PaletteOf(fixed, buffer, offset).value.0;
      var current := Ground.PaletteOf(buffer, offset).value.0;
      forall k :: 7 <= k < 16 ==> Current(older[k]) == current[k]
  {
    if offset + 24 <= |buffer| {
      forall k | 0 <= k < 8 {
        UpperEntryAgrees(buffer, offset, k);
      }
    }
  }

  /** Both revisions accept exactly the same files, with the same object and
      terrain records; the palettes differ only in how colours 7..15 are widened. */
  lemma ContentAgrees(fixed: seq<Entry>, data: seq<byte>)
    requires |fixed| >= 7
    ensures ContentOf(fixed, data).Ok? == Ground.GroundOf(data).Ok?
    ensures ContentOf(fixed, data).Ok? ==>
      ContentOf(fixed, data).value.objectInfo == Ground.GroundOf(data).value.objectInfo
      && ContentOf(fixed, data).value.terrainInfo == Ground.GroundOf(data).value.terrainInfo
    ensures ContentOf(fixed, data).Err? ==> ContentOf(fixed, data).error == Ground.GroundOf(data).error
  {
  }

  /** All three palettes of a file map to the current ones through `Current` on
      colours 7..15. */
  lemma PalettesAgree(fixed: seq<Entry>, data: seq<byte>)
    requires |fixed| >= 7
    requires ContentOf(fixed, data).Ok?
    ensures var older := ContentOf(fixed, data).value.palettes;
      var current := Ground.GroundOf(data).value.palettes;
      forall k :: 7 <= k < 16 ==>
        && Current(older.custom[k]) == current.custom[k]
        && Current(older.standard[k]) == current.standard[k]
        && Current(older.preview[k]) == current.preview[k]
  {
    PaletteAgrees(fixed, data, Ground.PalettesBase + 24);
    PaletteAgrees(fixed, data, Ground.PalettesBase + 48);
    PaletteAgrees(fixed, data, Ground.PalettesBase + 72);
  }
}

/** Tile-set metadata of the current revision (src/game_data/file/ground.rs): a
    `groundNo.dat` file is 16 object records of 28 bytes, 64 terrain records of 8
    bytes, 24 unused bytes and three 16-colour palettes of which only the upper
    eight colours are stored. Every word is little-endian. */
module Ground {
  import opened Wrappers
  import opened Bytes
  import Read
  import opened Palette

  const ObjectsPerTileset: nat := 16
  const TilesPerTileset: nat := 64
  const ObjectInfoSize: nat := 28
  const TerrainInfoSize: nat := 8
  /** 24 unused bytes, then three palettes of eight stored colours. */
  const PalettesSize: nat := 96
  /** Where the terrain records begin: after the 16 object records. */
  const TerrainBase: nat := 448
  /** Where the palette block begins: after the 64 terrain records. */
  const PalettesBase: nat := 960
  /** 16 * 28 + 64 * 8 + 96. */
  const GroundSize: nat := 1056

  datatype ObjectInfo = ObjectInfo(
    animationLoops: bool,
    animationStart: nat,
    animationEnd: nat,
    width: nat,
    height: nat,
    animationFrameSize: nat,
    maskOffset: nat,
    triggerLeft: nat,
    triggerTop: nat,
    triggerWidth: nat,
    triggerHeight: nat,
    triggerEffect: nat,
    framesOffset: nat,
    previewFrameOffset: nat,
    trapSoundEffect: nat)

  datatype TerrainInfo = TerrainInfo(width: nat, height: nat, imageOffset: nat, maskOffset: nat)

  datatype Palettes = Palettes(custom: seq<Rgb>, standard: seq<Rgb>, preview: seq<Rgb>)

  datatype Content = Content(objectInfo: seq<ObjectInfo>, terrainInfo: seq<TerrainInfo>, palettes: Palettes)

  /** The little-endian word at `o`. */
  function LittleEndian(buffer: seq<byte>, o: nat): nat
    requires o + 1 < |buffer|
  {
    buffer[o] as nat + 256 * (buffer[o + 1] as nat)
  }

  /** The object record at `o`, field by field at its fixed position: bytes 10..13
      and 25..26 are not used. */
  function ObjectInfoAt(buffer: seq<byte>, o: nat): ObjectInfo
    requires o + ObjectInfoSize <= |buffer|
  {
    ObjectInfo(
      animationLoops := LittleEndian(buffer, o) % 2 == 1,
      animationStart := buffer[o + 2],
      animationEnd := buffer[o + 3],
      width := buffer[o + 4],
      height := buffer[o + 5],
      animationFrameSize := LittleEndian(buffer, o + 6),
      maskOffset := LittleEndian(buffer, o + 8),
      triggerLeft := LittleEndian(buffer, o + 14),
      triggerTop := LittleEndian(buffer, o + 16),
      triggerWidth := buffer[o + 18],
      triggerHeight := buffer[o + 19],
      triggerEffect := buffer[o + 20],
      framesOffset := LittleEndian(buffer, o + 21),
      previewFrameOffset := LittleEndian(buffer, o + 23),
      trapSoundEffect := buffer[o + 27])
  }

  /** `read_object_info`: reads the record field by field, threading the offset. */
  function ReadObjectInfo(buffer: seq<byte>, offset: nat): (r: Result<(ObjectInfo, nat)>)
    ensures r.Ok? <==> offset + ObjectInfoSize <= |buffer|
    ensures r.Ok? ==> r.value == (ObjectInfoAt(buffer, offset), offset + ObjectInfoSize)
    ensures r.Err? ==> r.error == OutOfBounds
  {
    var animationFlags :- Read.ReadWordBe(buffer, offset);
    var animationStart :- Read.ReadByte(buffer, animationFlags.1);
    var animationEnd :- Read.ReadByte(buffer, animationStart.1);
    var width :- Read.ReadByte(buffer, animationEnd.1);
    var height :- Read.ReadByte(buffer, width.1);
    var animationFrameSize :- Read.ReadWordBe(buffer, height.1);
    var maskOffset :- Read.ReadWordBe(buffer, animationFrameSize.1);
    var triggerLeft :- Read.ReadWordBe(buffer, maskOffset.1 + 4);
    var triggerTop :- Read.ReadWordBe(buffer, triggerLeft.1);
    var triggerWidth :- Read.ReadByte(buffer, triggerTop.1);
    var triggerHeight :- Read.ReadByte(buffer, triggerWidth.1);
    var triggerEffect :- Read.ReadByte(buffer, triggerHeight.1);
    var framesOffset :- Read.ReadWordBe(buffer, triggerEffect.1);
    var previewFrameOffset :- Read.ReadWordBe(buffer, framesOffset.1);
    var trapSoundEffect :- Read.ReadByte(buffer, previewFrameOffset.1 + 2);
    Ok((ObjectInfo(
      animationLoops := animationFlags.0 % 2 > 0,
      animationStart := animationStart.0,
      animationEnd := animationEnd.0,
      width := width.0,
      height := height.0,
      animationFrameSize := animationFrameSize.0,
      maskOffset := maskOffset.0,
      triggerLeft := triggerLeft.0,
      triggerTop := triggerTop.0,
      triggerWidth := triggerWidth.0,
      triggerHeight := triggerHeight.0,
      triggerEffect := triggerEffect.0,
      framesOffset := framesOffset.0,
      previewFrameOffset := previewFrameOffset.0,
      trapSoundEffect := trapSoundEffect.0), trapSoundEffect.1))
  }

  /** The terrain record at `o`; its last two bytes are not used. */
  function TerrainInfoAt(buffer: seq<byte>, o: nat): TerrainInfo
    requires o + 6 <= |buffer|
  {
    TerrainInfo(buffer[o], buffer[o + 1], LittleEndian(buffer, o + 2), LittleEndian(buffer, o + 4))
  }

  /** `read_terrain_info`: the two unused bytes at the end are skipped without a
      read, so a record may end up to two bytes past the buffer. */
  function ReadTerrainInfo(buffer: seq<byte>, offset: nat): (r: Result<(TerrainInfo, nat)>)
    ensures r.Ok? <==> offset + 6 <= |buffer|
    ensures r.Ok? ==> r.value == (TerrainInfoAt(buffer, offset), offset + TerrainInfoSize)
    ensures r.Err? ==> r.error == OutOfBounds
  {
    var width :- Read.ReadByte(buffer, offset);
    var height :- Read.ReadByte(buffer, width.1);
    var imageOffset :- Read.ReadWordBe(buffer, height.1);
    var maskOffset :- Read.ReadWordBe(buffer, imageOffset.1);
    Ok((TerrainInfo(width.0, height.0, imageOffset.0, maskOffset.0), maskOffset.1 + 2))
  }

  /** Stored colour `k` (0..7) of the palette at `offset`. */
  function UpperEntry(buffer: seq<byte>, offset: nat, k: nat): Rgb
    requires offset + 3 * k + 3 <= |buffer|
  {
    ExpandRgb6To8(buffer[offset + 3 * k], buffer[offset + 3 * k + 1], buffer[offset + 3 * k + 2])
  }

  /** A palette as it stands in the file: 24 bytes at `offset` holding colours 8..15. */
  function PaletteOf(buffer: seq<byte>, offset: nat): (r: Result<(seq<Rgb>, nat)>)
    ensures r.Ok? <==> offset + 24 <= |buffer|
    ensures r.Err? ==> r.error == OutOfBounds
    ensures r.Ok? ==> r.value.1 == offset + 24 && |r.value.0| == PaletteSize
    ensures r.Ok? ==> r.value.0[..7] == LowerPaletteFixed && r.value.0[7] == r.value.0[8]
    ensures r.Ok? ==> forall k :: 0 <= k < 8 ==> r.value.0[8 + k] == UpperEntry(buffer, offset, k)
  {
    if |buffer| < offset + 24 then Err(OutOfBounds)
    else
      var upper := seq(8, k requires 0 <= k < 8 => UpperEntry(buffer, offset, k));
      Ok((LowerPaletteFixed + [upper[0]] + upper, offset + 24))
  }

  /** `read_palette`: the fixed colours, then eight colours read from the file,
      then colour 7 copied from colour 8. */
  method ReadPalette(buffer: seq<byte>, offset: nat) returns (r: Result<(seq<Rgb>, nat)>)
    ensures r == PaletteOf(buffer, offset)
  {
    var palette := new Rgb[PaletteSize](_ => Rgb(0, 0, 0));
    for i := 0 to 7
      invariant palette[..i] == LowerPaletteFixed[..i]
    {
      palette[i] := LowerPaletteFixed[i];
    }
    var cursor := ReadUpper(palette, buffer, offset);
    if cursor.Err? {
      return Err(cursor.error);
    }
    palette[7] := palette[8];
    PaletteOfParts(buffer, offset, palette[..]);
    r := Ok((palette[..], cursor.value));
  }

  /** The loop over colours 8..15 of `read_palette`, three bytes each from
      `offset` on; it leaves colours 0..7 alone. */
  method ReadUpper(palette: array<Rgb>, buffer: seq<byte>, offset: nat) returns (r: Result<nat>)
    requires palette.Length == PaletteSize
    modifies palette
    ensures forall k :: 0 <= k < 8 ==> palette[k] == old(palette[k])
    ensures offset + 24 <= |buffer| ==> r == Ok(offset + 24)
    ensures offset + 24 <= |buffer| ==> forall k :: 8 <= k < 16 ==> palette[k] == UpperEntry(buffer, offset, k - 8)
    ensures offset + 24 > |buffer| ==> r == Err(OutOfBounds)
  {
    var cursor := offset;
    for i := 8 to 16
      invariant forall k :: 0 <= k < 8 ==> palette[k] == old(palette[k])
      invariant cursor == offset + 3 * (i - 8) && (i == 8 || cursor <= |buffer|)
      invariant forall k :: 8 <= k < i ==> palette[k] == UpperEntry(buffer, offset, k - 8)
    {
      var next := ReadColour(palette, buffer, offset, i);
      if next.Err? {
        return Err(next.error);
      }
      cursor := next.value;
    }
    return Ok(cursor);
  }

  /** One iteration of that loop: colour `i` from the three bytes after the
      colours before it. */
  method ReadColour(palette: array<Rgb>, buffer: seq<byte>, offset: nat, i: nat) returns (r: Result<nat>)
    requires 8 <= i < palette.Length == PaletteSize
    modifies palette
    ensures forall k :: 0 <= k < palette.Length && k != i ==> palette[k] == old(palette[k])
    ensures offset + 3 * (i - 8) + 3 <= |buffer| ==>
      r == Ok(offset + 3 * (i - 8) + 3) && palette[i] == UpperEntry(buffer, offset, i - 8)
    ensures offset + 3 * (i - 8) + 3 > |buffer| ==> r == Err(OutOfBounds)
  {
    var cursor := offset + 3 * (i - 8);
    if cursor + 3 > |buffer| {
      return Err(OutOfBounds);
    }
    var entry := ReadPaletteEntry(buffer, cursor);
    assert entry.value.0 == UpperEntry(buffer, offset, i - 8);
    palette[i] := entry.value.0;
    return Ok(entry.value.1);
  }

  /** The palette `PaletteOf` describes, from its three parts. */
  lemma PaletteOfParts(buffer: seq<byte>, offset: nat, s: seq<Rgb>)
    requires offset + 24 <= |buffer| && |s| == PaletteSize
    requires s[..7] == LowerPaletteFixed && s[7] == s[8]
    requires forall k :: 8 <= k < 16 ==> s[k] == UpperEntry(buffer, offset, k - 8)
    ensures s == PaletteOf(buffer, offset).value.0
  {
    var p := PaletteOf(buffer, offset).value.0;
    forall k | 0 <= k < PaletteSize
      ensures s[k] == p[k]
    {
      if k < 7 {
        assert s[k] == s[..7][k] && p[k] == p[..7][k];
      } else if k > 7 {
        assert p[8 + (k - 8)] == UpperEntry(buffer, offset, k - 8);
      }
    }
  }

  /** The three palettes after the 24 unused bytes at `offset`. */
  function PalettesOf(buffer: seq<byte>, offset: nat): (r: Result<(Palettes, nat)>)
    ensures r.Ok? <==> offset + PalettesSize <= |buffer|
    ensures r.Err? ==> r.error == OutOfBounds
    ensures r.Ok? ==> r.value.1 == offset + PalettesSize
    ensures r.Ok? ==> r.value.0 == Palettes(PaletteOf(buffer, offset + 24).value.0,
      PaletteOf(buffer, offset + 48).value.0, PaletteOf(buffer, offset + 72).value.0)
  {
    if |buffer| < offset + PalettesSize then Err(OutOfBounds)
    else
      Ok((Palettes(PaletteOf(buffer, offset + 24).value.0,
        PaletteOf(buffer, offset + 48).value.0, PaletteOf(buffer, offset + 72).value.0), offset + PalettesSize))
  }

  /** `read_palettes`: skips 24 bytes, then reads custom, standard and preview. */
  method ReadPalettes(buffer: seq<byte>, offset: nat) returns (r: Result<(Palettes, nat)>)
    ensures r == PalettesOf(buffer, offset)
  {
    var custom := ReadPalette(buffer, offset + 24);
    if custom.Err? {
      return Err(custom.error);
    }
    var standard := ReadPalette(buffer, custom.value.1);
    if standard.Err? {
      return Err(standard.error);
    }
    var preview := ReadPalette(buffer, standard.value.1);
    if preview.Err? {
      return Err(preview.error);
    }
    return Ok((Palettes(custom.value.0, standard.value.0, preview.value.0), preview.value.1));
  }

  /** The first `n` object records. */
  function ObjectInfos(buffer: seq<byte>, n: nat): (r: seq<ObjectInfo>)
    requires ObjectInfoSize * n <= |buffer|
    ensures |r| == n
  {
    seq(n, i requires 0 <= i < n => ObjectInfoAt(buffer, ObjectInfoSize * i))
  }

  lemma ObjectInfosNext(buffer: seq<byte>, n: nat)
    requires ObjectInfoSize * (n + 1) <= |buffer|
    ensures ObjectInfos(buffer, n + 1) == ObjectInfos(buffer, n) + [ObjectInfoAt(buffer, ObjectInfoSize * n)]
  {
    assert forall i :: 0 <= i < n ==> ObjectInfos(buffer, n + 1)[i] == ObjectInfos(buffer, n)[i];
  }

  /** The first `n` terrain records after the object records. */
  function TerrainInfos(buffer: seq<byte>, n: nat): (r: seq<TerrainInfo>)
    requires n == 0 || TerrainBase + TerrainInfoSize * n <= |buffer| + 2
    ensures |r| == n
  {
    seq(n, i requires 0 <= i < n => TerrainInfoAt(buffer, TerrainBase + TerrainInfoSize * i))
  }

  lemma TerrainInfosNext(buffer: seq<byte>, n: nat)
    requires TerrainBase + TerrainInfoSize * (n + 1) <= |buffer| + 2
    ensures TerrainInfos(buffer, n + 1) == TerrainInfos(buffer, n) + [TerrainInfoAt(buffer, TerrainBase + TerrainInfoSize * n)]
  {
    assert forall i :: 0 <= i < n ==> TerrainInfos(buffer, n + 1)[i] == TerrainInfos(buffer, n)[i];
  }

  /** A ground file decodes iff it has exactly 1056 bytes: a shorter one runs out
      of bytes, a longer one has data left over. */
  function GroundOf(data: seq<byte>): (r: Result<Content>)
    ensures r.Ok? <==> |data| == GroundSize
    ensures r.Ok? ==> |r.value.objectInfo| == ObjectsPerTileset && |r.value.terrainInfo| == TilesPerTileset
  {
    if |data| < GroundSize then Err(OutOfBounds)
    else if |data| > GroundSize then Err(SizeMismatch)
    else Ok(Content(ObjectInfos(data, ObjectsPerTileset), TerrainInfos(data, TilesPerTileset), PalettesOf(data, PalettesBase).value.0))
  }

  /** The post-read body of `read_ground` on the file's bytes: the record loops
      with a running offset, the palettes, and the check that nothing is left. */
  method ReadGround(data: seq<byte>) returns (r: Result<Content>)
    ensures r == GroundOf(data)
  {
    var objects := ReadObjectInfos(data);
    if objects.Err? {
      return Err(objects.error);
    }
    var terrain := ReadTerrainInfos(data);
    if terrain.Err? {
      return Err(terrain.error);
    }
    var palettes := ReadPalettes(data, PalettesBase);
    if palettes.Err? {
      return Err(palettes.error);
    }
    if palettes.value.1 != |data| {
      return Err(SizeMismatch);
    }
    return Ok(Content(objects.value, terrain.value, palettes.value.0));
  }

  /** The object records, read one after the other from the start of the file;
      reading fails on a file too short to hold them. */
  method ReadObjectInfos(data: seq<byte>) returns (r: Result<seq<ObjectInfo>>)
    ensures ObjectInfoSize * ObjectsPerTileset <= |data| ==> r == Ok(ObjectInfos(data, ObjectsPerTileset))
    ensures ObjectInfoSize * ObjectsPerTileset > |data| ==> r == Err(OutOfBounds)
  {
    var offset := 0;
    var objectInfo := new ObjectInfo[ObjectsPerTileset](_ => ObjectInfo(false, 0, 0, 0, 0, 0, 0, 0, 0, 0, 0, 0, 0, 0, 0));
    for i := 0 to ObjectsPerTileset
      invariant offset == ObjectInfoSize * i <= |data|
      invariant objectInfo[..i] == ObjectInfos(data, i)
    {
      var read := ReadObjectInfo(data, offset);
      if read.Err? {
        return Err(read.error);
      }
      ObjectInfosNext(data, i);
      objectInfo[i] := read.value.0;
      offset := read.value.1;
      assert objectInfo[..i + 1] == objectInfo[..i] + [objectInfo[i]];
    }
    assert objectInfo[..] == objectInfo[..ObjectsPerTileset];
    return Ok(objectInfo[..]);
  }

  /** The terrain records, read one after the other after the object records;
      the last one may lack its two padding bytes. */
  method ReadTerrainInfos(data: seq<byte>) returns (r: Result<seq<TerrainInfo>>)
    ensures TerrainBase + TerrainInfoSize * TilesPerTileset <= |data| + 2 ==> r == Ok(TerrainInfos(data, TilesPerTileset))
    ensures TerrainBase + TerrainInfoSize * TilesPerTileset > |data| + 2 ==> r == Err(OutOfBounds)
  {
    var offset := TerrainBase;
    var terrainInfo := new TerrainInfo[TilesPerTileset](_ => TerrainInfo(0, 0, 0, 0));
    for i := 0 to TilesPerTileset
      invariant offset == TerrainBase + TerrainInfoSize * i
      invariant i == 0 || offset <= |data| + 2
      invariant terrainInfo[..i] == TerrainInfos(data, i)
    {
      var read := ReadTerrainInfo(data, offset);
      if read.Err? {
        return Err(read.error);
      }
      TerrainInfosNext(data, i);
      terrainInfo[i] := read.value.0;
      offset := read.value.1;
      assert terrainInfo[..i + 1] == terrainInfo[..i] + [terrainInfo[i]];
    }
    assert terrainInfo[..] == terrainInfo[..TilesPerTileset];
    return Ok(terrainInfo[..]);
  }

  /** Every decoded palette starts with the fixed colours and repeats colour 8 as
      colour 7. */
  lemma GroundPalettes(data: seq<byte>)
    requires GroundOf(data).Ok?
    ensures var p := GroundOf(data).value.palettes;
      |p.custom| == |p.standard| == |p.preview| == PaletteSize
      && p.custom[..7] == p.standard[..7] == p.preview[..7] == LowerPaletteFixed
      && p.custom[7] == p.custom[8] && p.standard[7] == p.standard[8] && p.preview[7] == p.preview[8]
  {
  }
}

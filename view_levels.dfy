/** The level viewer's pure logic (src/tools/cmd/view_levels.rs): the palette
    of a level, the 1600x160 buffer of palette indices its background is drawn
    into, and the clamping of the view position. Index 255 marks an empty cell. */
module ViewLevels {
  import opened Wrappers
  import opened Bytes
  import opened Palette
  import Level
  import SpriteDecoder
  import GameData
  import Vgaspec

  const LevelWidth: nat := 1600
  const LevelHeight: nat := 160
  const LevelCells: nat := LevelWidth * LevelHeight
  /** The column at which a special background is drawn. */
  const VgaspecPosition: nat := 304
  const Empty: byte := 255
  const I32Min: int := -0x8000_0000
  const I32Max: int := 0x7fff_ffff

  /** `get_palette`: a level with an extended graphics set `e > 0` uses the palette
      of special background `e - 1`, any other the custom palette of its tile set. */
  function GetPalette(data: GameData.GameData, level: Level.Level): (r: Result<seq<Rgb>>)
    ensures r.Ok? <==> if level.extendedGraphicsSet > 0 then level.extendedGraphicsSet <= |data.specialBackgrounds|
      else level.graphicsSet < |data.tilesets|
    ensures r.Err? ==> r.error == BadGraphicsSet
  {
    if level.extendedGraphicsSet > 0 then
      if level.extendedGraphicsSet - 1 < |data.specialBackgrounds| then
        Ok(data.specialBackgrounds[level.extendedGraphicsSet - 1].palette)
      else Err(BadGraphicsSet)
    else if level.graphicsSet < |data.tilesets| then Ok(data.tilesets[level.graphicsSet].palettes.custom)
    else Err(BadGraphicsSet)
  }

  /** The cell of column `x` and row `y` is `1600 y + x`. */
  lemma LevelCell(x: int, y: int)
    requires 0 <= x < LevelWidth && 0 <= y < LevelHeight
    ensures 0 <= y * LevelWidth + x < LevelCells
    ensures (y * LevelWidth + x) % LevelWidth == x && (y * LevelWidth + x) / LevelWidth == y
  {
  }

  /** Row `y` and column `x` of a `w`-wide bitmap of `h` rows is inside it. */
  lemma BitmapCell(x: nat, y: nat, w: nat, h: nat)
    requires x < w && y < h
    ensures y * w + x < w * h
  {
    assert y * w + x < y * w + w == (y + 1) * w <= h * w;
  }

  /** A bitmap whose pixel and transparency vectors cover its area, so that the
      loops index inside them. */
  predicate Drawable(bitmap: SpriteDecoder.Bitmap)
  {
    |bitmap.data| >= bitmap.width * bitmap.height && |bitmap.transparency| >= bitmap.width * bitmap.height
  }

  // ---------------------------------------------------------------- one tile

  /** What one source pixel does to a level cell: a transparent pixel nothing;
      `do_not_overwrite` paints only empty cells and wins over `remove_terrain`,
      which empties the cell; otherwise the pixel is painted. */
  function Paint(tile: Level.TerrainTile, current: byte, colour: byte, transparent: bool): (r: byte)
    ensures transparent ==> r == current
    ensures tile.doNotOverwrite && current != Empty ==> r == current
    ensures !transparent && tile.doNotOverwrite && current == Empty ==> r == colour
    ensures !transparent && !tile.doNotOverwrite ==> r == if tile.removeTerrain then Empty else colour
  {
    if tile.doNotOverwrite then
      if current == Empty && !transparent then colour else current
    else if tile.removeTerrain then
      if !transparent then Empty else current
    else if !transparent then colour else current
  }

  /** The pixel of the tile's bitmap that lands on level column `xd`, row `yd`:
      the tile's origin is its `x`, `y`, and `flip_y` mirrors the rows. */
  function SourceIndex(tile: Level.TerrainTile, bitmap: SpriteDecoder.Bitmap, xd: int, yd: int): (r: Option<nat>)
    ensures r.Some? <==> tile.x <= xd < tile.x + bitmap.width && tile.y <= yd < tile.y + bitmap.height
    ensures r.Some? ==> r.value < bitmap.width * bitmap.height
    ensures r.Some? && !tile.flipY ==> r.value == (yd - tile.y) * bitmap.width + (xd - tile.x)
    ensures r.Some? && tile.flipY ==> r.value == (bitmap.height - 1 - (yd - tile.y)) * bitmap.width + (xd - tile.x)
  {
    var sx := xd - tile.x;
    var sy := yd - tile.y;
    if 0 <= sx < bitmap.width && 0 <= sy < bitmap.height then
      var row := if tile.flipY then bitmap.height - 1 - sy else sy;
      BitmapCell(sx, row, bitmap.width, bitmap.height);
      Some(row * bitmap.width + sx)
    else None
  }

  /** Level cell `(xd, yd)` after the tile, from its value `current` before. */
  function Composed(tile: Level.TerrainTile, bitmap: SpriteDecoder.Bitmap, current: byte, xd: int, yd: int): byte
    requires Drawable(bitmap)
  {
    match SourceIndex(tile, bitmap, xd, yd)
    case None => current
    case Some(src) => Paint(tile, current, bitmap.data[src], bitmap.transparency[src])
  }

  /** The level buffer after one tile is composed onto it. */
  function ComposeTile(buffer: seq<byte>, tile: Level.TerrainTile, bitmap: SpriteDecoder.Bitmap): (r: seq<byte>)
    requires |buffer| == LevelCells && Drawable(bitmap)
    ensures |r| == LevelCells
  {
    seq(LevelCells, d requires 0 <= d < LevelCells => Composed(tile, bitmap, buffer[d], d % LevelWidth, d / LevelWidth))
  }

  /** A tile changes a cell only inside its own rectangle on the level (parts off
      the level are dropped, not wrapped onto other rows) and only under an
      opaque pixel. */
  lemma TileFootprint(buffer: seq<byte>, tile: Level.TerrainTile, bitmap: SpriteDecoder.Bitmap, d: nat)
    requires |buffer| == LevelCells && Drawable(bitmap) && d < LevelCells
    requires ComposeTile(buffer, tile, bitmap)[d] != buffer[d]
    ensures tile.x <= d % LevelWidth < tile.x + bitmap.width && tile.y <= d / LevelWidth < tile.y + bitmap.height
    ensures !bitmap.transparency[SourceIndex(tile, bitmap, d % LevelWidth, d / LevelWidth).value]
  {
  }

  /** The cells the loops of `compose_tile_onto_background` have visited once
      they reach column `x`, row `y` of the bitmap (columns outer, rows inner). */
  predicate Visited(tile: Level.TerrainTile, d: nat, x: int, y: int)
  {
    var sx := d % LevelWidth - tile.x;
    var sy := d / LevelWidth - tile.y;
    sx < x || (sx == x && sy < y)
  }

  /** `compose_tile_onto_background`. */
  method ComposeTileOntoBackground(tile: Level.TerrainTile, bitmap: SpriteDecoder.Bitmap, background: array<byte>)
    requires background.Length == LevelCells && Drawable(bitmap)
    modifies background
    ensures background[..] == ComposeTile(old(background[..]), tile, bitmap)
  {
    ghost var before := background[..];
    for x := 0 to bitmap.width
      invariant forall d :: 0 <= d < LevelCells ==>
        background[d] == (if Visited(tile, d, x, 0) then Composed(tile, bitmap, before[d], d % LevelWidth, d / LevelWidth) else before[d])
    {
      for y := 0 to bitmap.height
        invariant forall d :: 0 <= d < LevelCells ==>
          background[d] == (if Visited(tile, d, x, y) then Composed(tile, bitmap, before[d], d % LevelWidth, d / LevelWidth) else before[d])
      {
        var yTransformed := if tile.flipY then bitmap.height - 1 - y else y;
        var xDest := tile.x + x;
        var yDest := tile.y + y;
        if 0 <= xDest < LevelWidth && 0 <= yDest < LevelHeight {
          BitmapCell(x, yTransformed, bitmap.width, bitmap.height);
          LevelCell(xDest, yDest);
          var src := yTransformed * bitmap.width + x;
          var dest := yDest * LevelWidth + xDest;
          assert SourceIndex(tile, bitmap, xDest, yDest) == Some(src);
          if tile.doNotOverwrite {
            if background[dest] == Empty && !bitmap.transparency[src] {
              background[dest] := bitmap.data[src];
            }
          } else if tile.removeTerrain {
            if !bitmap.transparency[src] {
              background[dest] := Empty;
            }
          } else {
            if !bitmap.transparency[src] {
              background[dest] := bitmap.data[src];
            }
          }
        }
      }
    }
    assert background[..] == ComposeTile(before, tile, bitmap);
  }

  // ------------------------------------------------------ the whole background

  /** A special background that fits the level at column 304. */
  predicate Fits(bitmap: SpriteDecoder.Bitmap)
  {
    VgaspecPosition + bitmap.width <= LevelWidth && bitmap.height <= LevelHeight && Drawable(bitmap)
  }

  /** Every decoded special background is 960x160 and so fits at column 304,
      ending at column 1264 of the 1600, on the level's 160 rows. */
  lemma DecodedBackgroundFits(data: seq<byte>)
    requires Vgaspec.ContentOf(data).Ok?
    ensures Fits(Vgaspec.ContentOf(data).value.bitmap)
  {
    Vgaspec.ContentPixels(data);
  }

  /** Level cell `d` with the special background drawn at column 304: its pixel,
      or empty where it is transparent or absent. */
  function SpecialCell(bitmap: SpriteDecoder.Bitmap, d: nat): byte
    requires Drawable(bitmap)
  {
    var x := d % LevelWidth - VgaspecPosition;
    var y := d / LevelWidth;
    if 0 <= x < bitmap.width && y < bitmap.height then
      BitmapCell(x, y, bitmap.width, bitmap.height);
      if bitmap.transparency[y * bitmap.width + x] then Empty else bitmap.data[y * bitmap.width + x]
    else Empty
  }

  /** The special background a level asks for, if it asks for one. */
  predicate SpecialFits(data: GameData.GameData, level: Level.Level)
  {
    0 < level.extendedGraphicsSet <= |data.specialBackgrounds| ==>
      Fits(data.specialBackgrounds[level.extendedGraphicsSet - 1].bitmap)
  }

  /** The buffer before any tile: all empty, with the special background of an
      extended graphics set `e > 0` drawn from special background `e - 1`. */
  function SpecialLayer(data: GameData.GameData, level: Level.Level): (r: Result<seq<byte>>)
    requires SpecialFits(data, level)
    ensures r.Ok? <==> level.extendedGraphicsSet <= |data.specialBackgrounds|
    ensures r.Err? ==> r.error == BadGraphicsSet
    ensures r.Ok? ==> |r.value| == LevelCells
    ensures r.Ok? && level.extendedGraphicsSet == 0 ==> forall d :: 0 <= d < LevelCells ==> r.value[d] == Empty
  {
    if level.extendedGraphicsSet == 0 then Ok(seq(LevelCells, _ => Empty))
    else if level.extendedGraphicsSet - 1 >= |data.specialBackgrounds| then Err(BadGraphicsSet)
    else
      var bitmap := data.specialBackgrounds[level.extendedGraphicsSet - 1].bitmap;
      Ok(seq(LevelCells, d requires 0 <= d < LevelCells => SpecialCell(bitmap, d)))
  }

  /** The special background lands at column `304 + x`, row `y`, with its
      transparent pixels left empty. */
  lemma SpecialPlacement(data: GameData.GameData, level: Level.Level, x: nat, y: nat)
    requires SpecialFits(data, level) && 0 < level.extendedGraphicsSet <= |data.specialBackgrounds|
    requires var bitmap := data.specialBackgrounds[level.extendedGraphicsSet - 1].bitmap;
      x < bitmap.width && y < bitmap.height
    ensures var bitmap := data.specialBackgrounds[level.extendedGraphicsSet - 1].bitmap;
      var src := y * bitmap.width + x;
      && y * LevelWidth + VgaspecPosition + x < LevelCells
      && src < |bitmap.data| && src < |bitmap.transparency|
      && SpecialLayer(data, level).value[y * LevelWidth + VgaspecPosition + x] ==
        if bitmap.transparency[src] then Empty else bitmap.data[src]
  {
    var bitmap := data.specialBackgrounds[level.extendedGraphicsSet - 1].bitmap;
    LevelCell(VgaspecPosition + x, y);
    BitmapCell(x, y, bitmap.width, bitmap.height);
  }

  /** Every cell outside the special background's rectangle is empty. */
  lemma SpecialOutside(data: GameData.GameData, level: Level.Level, x: nat, y: nat)
    requires SpecialFits(data, level) && level.extendedGraphicsSet <= |data.specialBackgrounds|
    requires x < LevelWidth && y < LevelHeight
    requires level.extendedGraphicsSet > 0 ==>
      var bitmap := data.specialBackgrounds[level.extendedGraphicsSet - 1].bitmap;
      !(VgaspecPosition <= x < VgaspecPosition + bitmap.width && y < bitmap.height)
    ensures y * LevelWidth + x < LevelCells && SpecialLayer(data, level).value[y * LevelWidth + x] == Empty
  {
    LevelCell(x, y);
  }

  /** The palette a level is shown in comes from the special background that is
      drawn under it: both lookups fail or succeed together. */
  lemma PaletteMatchesBackground(data: GameData.GameData, level: Level.Level)
    requires SpecialFits(data, level) && level.extendedGraphicsSet > 0
    ensures GetPalette(data, level).Ok? <==> SpecialLayer(data, level).Ok?
    ensures GetPalette(data, level).Ok? ==>
      GetPalette(data, level).value == data.specialBackgrounds[level.extendedGraphicsSet - 1].palette
  {
  }

  /** Every bitmap of a tile set can be drawn. */
  predicate DrawableTiles(tiles: seq<Option<SpriteDecoder.Bitmap>>)
  {
    forall i :: 0 <= i < |tiles| && tiles[i].Some? ==> Drawable(tiles[i].value)
  }

  /** The buffer after the terrain tiles, in level order; a tile whose id names no
      bitmap of the tile set is skipped. */
  function TilesOnto(buffer: seq<byte>, tiles: seq<Option<SpriteDecoder.Bitmap>>, terrain: seq<Level.TerrainTile>): (r: seq<byte>)
    requires |buffer| == LevelCells && DrawableTiles(tiles)
    ensures |r| == LevelCells
    decreases |terrain|
  {
    if |terrain| == 0 then buffer
    else
      var previous := TilesOnto(buffer, tiles, terrain[..|terrain| - 1]);
      var tile := terrain[|terrain| - 1];
      if tile.id < |tiles| && tiles[tile.id].Some? then ComposeTile(previous, tile, tiles[tile.id].value)
      else previous
  }

  /** The preconditions of drawing a level: its special background fits, and the
      bitmaps of its tile set cover their areas. */
  predicate Drawn(data: GameData.GameData, level: Level.Level)
  {
    SpecialFits(data, level) &&
    (level.graphicsSet < |data.tilesets| ==> DrawableTiles(data.tilesets[level.graphicsSet].tiles))
  }

  /** The background buffer of `compose_level`. A missing special background is an
      error; a missing tile set is one only when there is a tile to draw. */
  function BackgroundOf(data: GameData.GameData, level: Level.Level): (r: Result<seq<byte>>)
    requires Drawn(data, level)
  {
    var layer :- SpecialLayer(data, level);
    if |level.terrainTiles| == 0 then Ok(layer)
    else if level.graphicsSet >= |data.tilesets| then Err(BadGraphicsSet)
    else Ok(TilesOnto(layer, data.tilesets[level.graphicsSet].tiles, level.terrainTiles))
  }

  /** A cell that no tile covers keeps the value of the special background layer. */
  lemma {:induction false} UncoveredCell(buffer: seq<byte>, tiles: seq<Option<SpriteDecoder.Bitmap>>,
      terrain: seq<Level.TerrainTile>, d: nat)
    requires |buffer| == LevelCells && DrawableTiles(tiles) && d < LevelCells
    requires forall k :: 0 <= k < |terrain| && terrain[k].id < |tiles| && tiles[terrain[k].id].Some? ==>
      var bitmap := tiles[terrain[k].id].value;
      !(terrain[k].x <= d % LevelWidth < terrain[k].x + bitmap.width && terrain[k].y <= d / LevelWidth < terrain[k].y + bitmap.height)
    ensures TilesOnto(buffer, tiles, terrain)[d] == buffer[d]
    decreases |terrain|
  {
    if |terrain| > 0 {
      var init := terrain[..|terrain| - 1];
      UncoveredCell(buffer, tiles, init, d);
      var tile := terrain[|terrain| - 1];
      if tile.id < |tiles| && tiles[tile.id].Some? {
        var previous := TilesOnto(buffer, tiles, init);
        if ComposeTile(previous, tile, tiles[tile.id].value)[d] != previous[d] {
          TileFootprint(previous, tile, tiles[tile.id].value, d);
        }
      }
    }
  }

  /** The special-background part of `compose_level`: every cell empty, then the
      background's rows copied at column 304. */
  method DrawSpecialBackground(data: GameData.GameData, level: Level.Level) returns (r: Result<array<byte>>)
    requires SpecialFits(data, level)
    ensures r.Ok? <==> SpecialLayer(data, level).Ok?
    ensures r.Err? ==> r.error == SpecialLayer(data, level).error
    ensures r.Ok? ==> fresh(r.value) && r.value[..] == SpecialLayer(data, level).value
  {
    var background := new byte[LevelCells](_ => Empty);
    if level.extendedGraphicsSet > 0 {
      if level.extendedGraphicsSet - 1 >= |data.specialBackgrounds| {
        return Err(BadGraphicsSet);
      }
      var bitmap := data.specialBackgrounds[level.extendedGraphicsSet - 1].bitmap;
      for y := 0 to bitmap.height
        invariant forall d :: 0 <= d < LevelCells ==>
          background[d] == (if d / LevelWidth < y then SpecialCell(bitmap, d) else Empty)
      {
        for x := 0 to bitmap.width
          invariant forall d :: 0 <= d < LevelCells ==>
            background[d] == (if d / LevelWidth < y || (d / LevelWidth == y && d % LevelWidth - VgaspecPosition < x) then SpecialCell(bitmap, d) else Empty)
        {
          BitmapCell(x, y, bitmap.width, bitmap.height);
          LevelCell(VgaspecPosition + x, y);
          var iSource := y * bitmap.width + x;
          var iDest := y * LevelWidth + VgaspecPosition + x;
          background[iDest] := if bitmap.transparency[iSource] then Empty else bitmap.data[iSource];
        }
      }
    }
    assert background[..] == SpecialLayer(data, level).value;
    return Ok(background);
  }

  /** The background-buffer part of `compose_level`: the special background, then
      each terrain tile in level order. */
  method ComposeBackground(data: GameData.GameData, level: Level.Level) returns (r: Result<seq<byte>>)
    requires Drawn(data, level)
    ensures r == BackgroundOf(data, level)
  {
    var layer := DrawSpecialBackground(data, level);
    if layer.Err? {
      return Err(layer.error);
    }
    var background := layer.value;
    ghost var start := background[..];
    for k := 0 to |level.terrainTiles|
      invariant k > 0 ==> level.graphicsSet < |data.tilesets|
      invariant k > 0 ==> background[..] == TilesOnto(start, data.tilesets[level.graphicsSet].tiles, level.terrainTiles[..k])
      invariant k == 0 ==> background[..] == start
    {
      if level.graphicsSet >= |data.tilesets| {
        return Err(BadGraphicsSet);
      }
      var tiles := data.tilesets[level.graphicsSet].tiles;
      var tile := level.terrainTiles[k];
      assert level.terrainTiles[..k + 1][..k] == level.terrainTiles[..k];
      if tile.id < |tiles| && tiles[tile.id].Some? {
        ComposeTileOntoBackground(tile, tiles[tile.id].value, background);
      }
    }
    assert level.terrainTiles[..|level.terrainTiles|] == level.terrainTiles;
    return Ok(background[..]);
  }

  // ------------------------------------------------------------------ the view

  /** `clamp_x`: the view's left column at `zoom`, kept at least 10 pixels from
      the right edge of the level (the view is `1280 / zoom` wide) and not left
      of 0. The `i32` addition must not overflow. */
  function ClampX(x: int, zoom: nat): (r: nat)
    requires 0 < zoom <= I32Max && I32Min <= x && x + 10 <= I32Max
    ensures r <= LevelWidth - 10 - 1280 / zoom
    ensures 0 <= x <= LevelWidth - 10 - 1280 / zoom ==> r == x
    ensures x < 0 ==> r == 0
    ensures x > LevelWidth - 10 - 1280 / zoom ==> r == LevelWidth - 10 - 1280 / zoom
  {
    var right := LevelWidth - 1280 / zoom;
    var shifted := (if x + 10 < right then x + 10 else right) - 10;
    if shifted > 0 then shifted else 0
  }

  /** Clamping twice is clamping once. */
  lemma ClampIdempotent(x: int, zoom: nat)
    requires 0 < zoom <= I32Max && I32Min <= x && x + 10 <= I32Max
    ensures ClampX(ClampX(x, zoom), zoom) == ClampX(x, zoom)
  {
  }

  /** `transform_x_for_zoom`: keeps the column at the centre of the view,
      `x + 640 / zoom`, when the zoom changes, then clamps. The `u32` addition
      must not overflow; its cast to `i32` wraps. */
  function TransformXForZoom(x: nat, oldZoom: nat, zoom: nat): (r: nat)
    requires 0 < oldZoom && 0 < zoom <= I32Max
    requires x + 640 / oldZoom < 0x1_0000_0000
    requires var shifted := Level.AsI32(x + 640 / oldZoom) - 640 / zoom; I32Min <= shifted && shifted + 10 <= I32Max
    ensures r <= LevelWidth - 10 - 1280 / zoom
    ensures x + 640 / oldZoom <= I32Max && 0 <= x + 640 / oldZoom - 640 / zoom <= LevelWidth - 10 - 1280 / zoom ==>
      r + 640 / zoom == x + 640 / oldZoom
  {
    ClampX(Level.AsI32(x + 640 / oldZoom) - 640 / zoom, zoom)
  }
}

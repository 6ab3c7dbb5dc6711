/** The level lookup of src/game_data/game_data.rs: the 120 levels of the game
    (four ratings of 30) map, through a fixed table, onto the 80 level records
    and the 80 odd-table parameter blocks. */
module GameData {
  import opened Wrappers
  import Level
  import Ground
  import SpriteDecoder
  import Vgaspec

  /** A value of `LEVEL_TABLE`: one more than an entry, and no entry is above 0x9f. */
  type TableValue = v: nat | 1 <= v <= 0xa0 witness 1

  /** `LEVEL_TABLE`: for each level of the game, one more than its table entry. */
  const LevelTable: seq<TableValue> := [
    0x93, 0x9b, 0x9d, 0x95, 0x97, 0x99, 0x9f, 0x0e, 0x16, 0x36, 0x46, 0x10, 0x1d, 0x20, 0x26, 0x2a,
    0x30, 0x48, 0x54, 0x68, 0x8a, 0x17, 0x44, 0x60, 0x62, 0x74, 0x4e, 0x64, 0x6c, 0x86, 0x01, 0x1e,
    0x24, 0x32, 0x34, 0x38, 0x3a, 0x50, 0x66, 0x78, 0x80, 0x82, 0x88, 0x05, 0x94, 0x98, 0x9a, 0x9c,
    0xa0, 0x07, 0x0b, 0x0d, 0x0f, 0x11, 0x13, 0x15, 0x19, 0x1b, 0x21, 0x1f, 0x25, 0x27, 0x29, 0x2b,
    0x2d, 0x2f, 0x31, 0x33, 0x35, 0x37, 0x39, 0x3b, 0x3d, 0x3f, 0x03, 0x41, 0x43, 0x45, 0x47, 0x49,
    0x4b, 0x4d, 0x4f, 0x51, 0x53, 0x55, 0x57, 0x59, 0x23, 0x6f, 0x5b, 0x5d, 0x5f, 0x61, 0x63, 0x65,
    0x67, 0x69, 0x6b, 0x6d, 0x70, 0x71, 0x73, 0x75, 0x77, 0x79, 0x7b, 0x7d, 0x7f, 0x96, 0x81, 0x09,
    0x83, 0x85, 0x87, 0x89, 0x8b, 0x8d, 0x8f, 0x91
  ]

  const LevelCount: nat := 120
  const LevelRecords: nat := 80

  /** The parts of a tile set the level view reads: its palettes and its terrain
      bitmaps, `None` for an empty slot. */
  datatype TileSet = TileSet(palettes: Ground.Palettes, tiles: seq<Option<SpriteDecoder.Bitmap>>)

  /** The parts of `GameData` the lookup and the level view read. */
  datatype GameData = GameData(levels: seq<Level.Level>, oddtable: seq<Level.Parameters>,
    tilesets: seq<TileSet>, specialBackgrounds: seq<Vgaspec.Content>)

  /** `8 * (entry >> 4) + ((entry >> 1) & 0x07)`: the record the entry names. */
  function LevelIndex(entry: nat): nat
  {
    8 * (entry / 16) + (entry / 2) % 8
  }

  /** `entry >> 1`: the odd-table block the entry names. */
  function OddtableIndex(entry: nat): nat
  {
    entry / 2
  }

  /** Every entry below 0xa0 names a record and an odd-table block below 80. */
  lemma IndicesBelow(entry: nat)
    requires entry < 0xa0
    ensures LevelIndex(entry) < LevelRecords && OddtableIndex(entry) < LevelRecords
  {
    assert entry / 16 <= 9;
  }

  /** For every one of the 120 levels, `LEVEL_TABLE[i] - 1` does not underflow
      and names a record and an odd-table block below 80. */
  lemma TableInRange(i: nat)
    requires i < LevelCount
    ensures |LevelTable| == LevelCount && LevelTable[i] >= 1
    ensures LevelIndex((LevelTable[i] as nat) - 1) < LevelRecords && OddtableIndex((LevelTable[i] as nat) - 1) < LevelRecords
  {
    IndicesBelow((LevelTable[i] as nat) - 1);
  }

  /** `GameData::resolve_level`: the record of an even entry as it is; for an odd
      entry the same record with its parameter block taken from the odd table.
      Any index out of range, in the table or in either list, gives `None`. */
  function ResolveLevel(game: GameData, index: nat): (r: Option<Level.Level>)
    ensures index >= LevelCount ==> r.None?
    ensures r.Some? <==> (index < LevelCount &&
      var entry := (LevelTable[index] as nat) - 1;
      LevelIndex(entry) < |game.levels| && (entry % 2 == 1 ==> OddtableIndex(entry) < |game.oddtable|))
    ensures r.Some? ==>
      var entry := (LevelTable[index] as nat) - 1;
      var level := game.levels[LevelIndex(entry)];
      && r.value.(parameters := level.parameters) == level
      && (entry % 2 == 0 ==> r.value == level)
      && (entry % 2 == 1 ==> r.value.parameters == game.oddtable[OddtableIndex(entry)])
  {
    if index >= |LevelTable| then None
    else
      var entry := (LevelTable[index] as nat) - 1;
      if LevelIndex(entry) >= |game.levels| then None
      else
        var level := game.levels[LevelIndex(entry)];
        if entry % 2 == 0 then Some(level)
        else if OddtableIndex(entry) >= |game.oddtable| then None
        else Some(level.(parameters := game.oddtable[OddtableIndex(entry)]))
  }

  /** With the 80 records and the 80 odd-table blocks of a full installation,
      every one of the 120 levels resolves. */
  lemma ResolveTotal(game: GameData, index: nat)
    requires |game.levels| >= LevelRecords && |game.oddtable| >= LevelRecords
    requires index < LevelCount
    ensures ResolveLevel(game, index).Some?
  {
    TableInRange(index);
  }

  /** The lookup fails for an index below 120 only because a list is short. */
  lemma ResolveNone(game: GameData, index: nat)
    requires index < LevelCount && ResolveLevel(game, index).None?
    ensures |game.levels| < LevelRecords || |game.oddtable| < LevelRecords
  {
    if |game.levels| >= LevelRecords && |game.oddtable| >= LevelRecords {
      ResolveTotal(game, index);
    }
  }
}

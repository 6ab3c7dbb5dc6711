/** The level record decoder of the current revision
    (src/game_data/file/level.rs): a 2048-byte record of big-endian scalars,
    32 object slots at 0x20, 400 terrain slots at 0x120 and a 32-byte name at
    0x7e0; and the odd-table file of 80 parameter records of 56 bytes. */
module Level {
  import opened Wrappers
  import opened Bytes
  import Read

  const LevelSize: nat := 2048
  const SkillCount: nat := 8
  const TerrainSlotCount: nat := 400
  const ObjectSlotCount: nat := 32
  const NameOffset: nat := 0x7e0
  const NameLength: nat := 32
  const OddtableEntries: nat := 80
  const OddtableEntrySize: nat := 0x38
  const OddtableNameOffset: nat := 0x18

  datatype TerrainTile = TerrainTile(x: int, y: int, id: nat, doNotOverwrite: bool, flipY: bool, removeTerrain: bool)

  datatype Object = Object(x: int, y: int, id: nat, doNotOverwrite: bool, flipY: bool, drawOnlyOverTerrain: bool)

  datatype Parameters = Parameters(releaseRate: nat, released: nat, required: nat, timeLimit: nat,
    skills: seq<nat>, name: string)

  datatype Level = Level(parameters: Parameters, startX: nat, graphicsSet: nat, extendedGraphicsSet: nat,
    terrainTiles: seq<TerrainTile>, objects: seq<Object>)

  /** The big-endian 16-bit word at `offset`. */
  function Word(data: seq<byte>, offset: nat): nat
    requires offset + 1 < |data|
  {
    256 * (data[offset] as int) + data[offset + 1] as int
  }

  /** `read8`. */
  function Read8(data: seq<byte>, offset: nat): (r: Result<byte>)
    ensures r.Ok? <==> offset < |data|
    ensures r.Ok? ==> r.value == data[offset]
  {
    var b :- Read.ReadByte(data, offset);
    Ok(b.0)
  }

  /** `read16`: `read_word_le`, which is big-endian. */
  function Read16(data: seq<byte>, offset: nat): (r: Result<nat>)
    ensures r.Ok? <==> offset + 1 < |data|
    ensures r.Ok? ==> r.value == Word(data, offset) && r.value < 65536
  {
    var w :- Read.ReadWordLe(data, offset);
    Ok(w.0)
  }

  /** A 16-bit word reinterpreted as two's-complement `i16`. */
  function AsI16(w: nat): (r: int)
    requires w < 65536
    ensures -32768 <= r < 32768 && (r - w) % 65536 == 0
  {
    if w < 32768 then w else w - 65536
  }

  /** A 32-bit word reinterpreted as two's-complement `i32`. */
  function AsI32(w: nat): (r: int)
    requires w < 0x1_0000_0000
    ensures -0x8000_0000 <= r < 0x8000_0000 && (r - w) % 0x1_0000_0000 == 0
  {
    if w < 0x8000_0000 then w else w - 0x1_0000_0000
  }

  /** A 9-bit field as a two's-complement value. */
  function SignExtend9(t: nat): (r: int)
    requires t < 512
    ensures -256 <= r < 256 && (r - t) % 512 == 0
  {
    if t < 256 then t else t - 512
  }

  /** Tile y from the second word `w`: `((w << 16) >> 23) - 4` on `i32`, the shift
      left wrapping into the sign bit and the shift right arithmetic (a floor
      division). */
  function TileY(w: nat): (y: int)
    requires w < 65536
    ensures y == SignExtend9(w / 128) - 4
    ensures -260 <= y <= 251
  {
    AsI32(w * 65536) / 0x80_0000 - 4
  }

  /** `read_terrain_tile`: `None` for an empty slot (first word 0xffff). */
  function TileAt(data: seq<byte>, index: nat): (r: Result<Option<TerrainTile>>)
    ensures index >= TerrainSlotCount ==> r == Err(BadIndex)
    ensures index < TerrainSlotCount && |data| == LevelSize ==> r.Ok?
    ensures r.Ok? ==> 0x121 + 4 * index < |data| && (r.value.None? <==> Word(data, 0x120 + 4 * index) == 0xffff)
    ensures r.Ok? && r.value.Some? ==>
      && -16 <= r.value.value.x <= 4079 && -260 <= r.value.value.y <= 251 && r.value.value.id < 64
  {
    if index >= TerrainSlotCount then Err(BadIndex)
    else
      var xAndFlags :- Read16(data, 0x120 + 4 * index);
      if xAndFlags == 0xffff then Ok(None)
      else
        var flags := xAndFlags / 4096;
        var y :- Read16(data, 0x122 + 4 * index);
        Ok(Some(TerrainTile(
          x := xAndFlags % 4096 - 16,
          y := TileY(y),
          id := y % 64,
          doNotOverwrite := Bit(flags, 3) == 1,
          flipY := Bit(flags, 2) == 1,
          removeTerrain := Bit(flags, 1) == 1)))
  }

  /** `read_object`: `None` for an all-zero slot. */
  function ObjectAt(data: seq<byte>, index: nat): (r: Result<Option<Object>>)
    ensures index >= ObjectSlotCount ==> r == Err(BadIndex)
    ensures index < ObjectSlotCount && |data| == LevelSize ==> r.Ok?
    ensures r.Ok? ==> 0x27 + 8 * index < |data| && (r.value.None? <==> forall j :: 0x20 + 8 * index <= j < 0x28 + 8 * index ==> data[j] == 0)
    ensures r.Ok? && r.value.Some? ==> -32784 <= r.value.value.x < 32752 && -32768 <= r.value.value.y < 32768
  {
    if index >= ObjectSlotCount then Err(BadIndex)
    else
      var base := 0x20 + 8 * index;
      var x :- Read16(data, base);
      var y :- Read16(data, base + 2);
      var id :- Read16(data, base + 4);
      var flags :- Read8(data, base + 6);
      var flip :- Read8(data, base + 7);
      if x == 0 && y == 0 && id == 0 && flags == 0 && flip == 0 then Ok(None)
      else Ok(Some(Object(
        x := AsI16(x) - 16,
        y := AsI16(y),
        id := id,
        doNotOverwrite := Bit(flags, 7) == 1,
        flipY := Bit(flip, 7) == 1,
        drawOnlyOverTerrain := Bit(flags, 6) == 1)))
  }

  /** The values of the occupied slots, in slot order; the first slot that
      fails decides the error. */
  function Present<T>(slots: seq<Result<Option<T>>>): (r: Result<seq<T>>)
    ensures r.Ok? ==> |r.value| <= |slots|
  {
    if slots == [] then Ok([])
    else
      var previous :- Present(slots[..|slots| - 1]);
      var slot :- slots[|slots| - 1];
      Ok(if slot.Some? then previous + [slot.value] else previous)
  }

  /** Slots that all decode give a list, each of whose values comes from a slot. */
  lemma {:induction false} PresentFrom<T>(slots: seq<Result<Option<T>>>)
    ensures (forall i :: 0 <= i < |slots| ==> slots[i].Ok?) ==> Present(slots).Ok?
    ensures Present(slots).Ok? ==> forall v :: v in Present(slots).value ==> Ok(Some(v)) in slots
    decreases |slots|
  {
    if slots != [] {
      var front := slots[..|slots| - 1];
      PresentFrom(front);
      assert forall i :: 0 <= i < |front| ==> front[i] == slots[i];
    }
  }

  /** One more slot. */
  lemma PresentNext<T>(slots: seq<Result<Option<T>>>, slot: Result<Option<T>>)
    ensures Present(slots + [slot]) == match Present(slots)
      case Err(e) => Err(e)
      case Ok(previous) => match slot
        case Err(e) => Err(e)
        case Ok(None) => Ok(previous)
        case Ok(Some(v)) => Ok(previous + [v])
  {
    assert (slots + [slot])[..|slots|] == slots;
  }

  /** The terrain slots below `n`. */
  function TileSlots(data: seq<byte>, n: nat): (r: seq<Result<Option<TerrainTile>>>)
    ensures |r| == n && forall i :: 0 <= i < n ==> r[i] == TileAt(data, i)
  {
    seq(n, i requires 0 <= i < n => TileAt(data, i))
  }

  /** The terrain table: the tiles of the slots below `n`, empty slots dropped. */
  function Tiles(data: seq<byte>, n: nat): (r: Result<seq<TerrainTile>>)
    ensures n <= TerrainSlotCount && |data| == LevelSize ==> r.Ok?
    ensures r.Ok? ==> |r.value| <= n
    ensures r.Ok? ==> forall t :: t in r.value ==> -16 <= t.x <= 4079 && -260 <= t.y <= 251 && t.id < 64
  {
    PresentFrom(TileSlots(data, n));
    Present(TileSlots(data, n))
  }

  /** The object slots below `n`. */
  function ObjectSlots(data: seq<byte>, n: nat): (r: seq<Result<Option<Object>>>)
    ensures |r| == n && forall i :: 0 <= i < n ==> r[i] == ObjectAt(data, i)
  {
    seq(n, i requires 0 <= i < n => ObjectAt(data, i))
  }

  /** The object table: the objects of the slots below `n`, empty slots dropped. */
  function Objects(data: seq<byte>, n: nat): (r: Result<seq<Object>>)
    ensures n <= ObjectSlotCount && |data| == LevelSize ==> r.Ok?
    ensures r.Ok? ==> |r.value| <= n
  {
    PresentFrom(ObjectSlots(data, n));
    Present(ObjectSlots(data, n))
  }

  /** The first `count` skill counts, the words at 0x08, 0x0a, ... */
  function Skills(data: seq<byte>, count: nat): (r: Result<seq<nat>>)
    ensures r.Ok? <==> count == 0 || 0x07 + 2 * count < |data|
    ensures r.Err? ==> r.error == OutOfBounds
    ensures r.Ok? ==> |r.value| == count
    ensures r.Ok? ==> forall i :: 0 <= i < count ==> r.value[i] == Word(data, 0x08 + 2 * i)
    decreases count
  {
    if count == 0 then Ok([])
    else
      var previous :- Skills(data, count - 1);
      var skill :- Read16(data, 0x08 + 2 * (count - 1));
      Ok(previous + [skill])
  }

  // The name: Latin-1 bytes, trimmed of white space as Rust's `str::trim` does

  /** Rust's `char::is_whitespace`: the Unicode White_Space property. */
  predicate IsWhitespace(c: char) {
    var n := c as int;
    || 9 <= n <= 13 || n == 0x20 || n == 0x85 || n == 0xa0 || n == 0x1680
    || 0x2000 <= n <= 0x200a || n == 0x2028 || n == 0x2029 || n == 0x202f || n == 0x205f || n == 0x3000
  }

  /** `char::from_u32`: `None` for surrogates and values past U+10FFFF. */
  function CharFromU32(n: nat): (r: Option<char>)
    ensures n < 256 ==> r.Some? && r.value as int == n
  {
    if n < 0xd800 || 0xe000 <= n < 0x11_0000 then Some(n as char) else None
  }

  function TrimStart(s: string): (r: string)
    ensures |r| <= |s| && r == s[|s| - |r|..]
    ensures forall k :: 0 <= k < |s| - |r| ==> IsWhitespace(s[k])
    ensures r != [] ==> !IsWhitespace(r[0])
  {
    if s != [] && IsWhitespace(s[0]) then TrimStart(s[1..]) else s
  }

  function TrimEnd(s: string): (r: string)
    ensures |r| <= |s| && r == s[..|r|]
    ensures forall k :: |r| <= k < |s| ==> IsWhitespace(s[k])
    ensures r != [] ==> !IsWhitespace(r[|r| - 1])
  {
    if s != [] && IsWhitespace(s[|s| - 1]) then TrimEnd(s[..|s| - 1]) else s
  }

  /** `str::trim`: the longest slice of `s` that neither starts nor ends with
      white space, everything cut off on either side being white space. */
  function Trim(s: string): (r: string)
    ensures r != [] ==> !IsWhitespace(r[0]) && !IsWhitespace(r[|r| - 1])
    ensures exists i, j ::
      && 0 <= i <= j <= |s| && r == s[i..j]
      && (forall k :: 0 <= k < i ==> IsWhitespace(s[k]))
      && (forall k :: j <= k < |s| ==> IsWhitespace(s[k]))
  {
    var t := TrimStart(s);
    var r := TrimEnd(t);
    var i := |s| - |t|;
    assert r == s[i..i + |r|];
    r
  }

  /** `read_name`: 32 bytes from `offset`, each taken as the code point of the
      same value, then trimmed. */
  function NameOf(data: seq<byte>, offset: nat): (r: Result<string>)
    ensures r.Ok? <==> offset + NameLength <= |data|
  {
    if offset + NameLength > |data| then Err(OutOfBounds)
    else Ok(Trim(seq(NameLength, i requires 0 <= i < NameLength => data[offset + i] as char)))
  }

  /** `read_name` with its loop: a byte past the end is the first read that
      fails; `char::from_u32` cannot fail on a byte. */
  method ReadName(data: seq<byte>, offset: nat) returns (r: Result<string>)
    ensures r == NameOf(data, offset)
  {
    var name: string := [];
    for i := 0 to NameLength
      invariant i == 0 || offset + i <= |data|
      invariant name == seq(i, k requires 0 <= k < i => data[offset + k] as char)
    {
      var charcode := Read8(data, offset + i);
      if charcode.Err? {
        return Err(charcode.error);
      }
      var c := CharFromU32(charcode.value);
      name := name + [c.value];
    }
    return Ok(Trim(name));
  }

  /** The parameter block shared by levels and odd-table entries: four scalars at
      0..7, `skillCount` skill counts from 0x08 (the rest stay 0), the name. */
  function ParametersOf(data: seq<byte>, nameOffset: nat, skillCount: nat): (r: Result<Parameters>)
    requires 0 < skillCount <= SkillCount
    ensures r.Ok? <==> 7 + 2 * skillCount < |data| && nameOffset + NameLength <= |data|
    ensures r.Ok? ==> |r.value.skills| == SkillCount
    ensures r.Ok? ==> forall i :: skillCount <= i < SkillCount ==> r.value.skills[i] == 0
  {
    var skills :- Skills(data, skillCount);
    var name :- NameOf(data, nameOffset);
    // the skill counts lie past the four scalars, so those reads cannot fail
    Ok(Parameters(Word(data, 0), Word(data, 2), Word(data, 4), Word(data, 6),
      skills + seq(SkillCount - skillCount, _ => 0), name))
  }

  /** The skill loop, filling an array of all skill counts. */
  method ReadSkills(data: seq<byte>) returns (r: Result<seq<nat>>)
    ensures r == Skills(data, SkillCount)
  {
    var skills := new nat[SkillCount](_ => 0);
    for i := 0 to SkillCount
      invariant i == 0 || 0x07 + 2 * i < |data|
      invariant forall k :: 0 <= k < i ==> skills[k] == Word(data, 0x08 + 2 * k)
    {
      var skill := Read16(data, 0x08 + 2 * i);
      if skill.Err? {
        return Err(skill.error);
      }
      skills[i] := skill.value;
    }
    var all: seq<nat> := skills[..];
    assert all == Skills(data, SkillCount).value;
    return Ok(all);
  }

  /** The skill loop, the four scalars and the name: `decode_oddtable_entry`, and
      the parameter part of `decode_level`. */
  method ReadParameters(data: seq<byte>, nameOffset: nat) returns (r: Result<Parameters>)
    ensures r == ParametersOf(data, nameOffset, SkillCount)
  {
    var skills := ReadSkills(data);
    if skills.Err? {
      return Err(skills.error);
    }
    // the skill counts lie past the four scalars, so those reads cannot fail
    var releaseRate := Read16(data, 0).value;
    var released := Read16(data, 2).value;
    var required := Read16(data, 4).value;
    var timeLimit := Read16(data, 6).value;
    var name := ReadName(data, nameOffset);
    if name.Err? {
      return Err(name.error);
    }
    assert skills.value == skills.value + [];
    return Ok(Parameters(releaseRate, released, required, timeLimit, skills.value, name.value));
  }

  /** `decode_level` as a function of the record. */
  function LevelOf(data: seq<byte>): (r: Result<Level>)
    ensures r.Ok? <==> |data| == LevelSize
    ensures r.Ok? ==> r.value.parameters == ParametersOf(data, NameOffset, SkillCount).value
    ensures r.Ok? ==> |r.value.terrainTiles| <= TerrainSlotCount && |r.value.objects| <= ObjectSlotCount
  {
    if |data| != LevelSize then Err(BadLength)
    else
      Ok(Level(ParametersOf(data, NameOffset, SkillCount).value, Word(data, 0x18), Word(data, 0x1a), Word(data, 0x1c),
        Tiles(data, TerrainSlotCount).value, Objects(data, ObjectSlotCount).value))
  }

  /** The terrain loop of `decode_level`. */
  method ReadTiles(data: seq<byte>) returns (tiles: seq<TerrainTile>)
    requires |data| == LevelSize
    ensures Tiles(data, TerrainSlotCount) == Ok(tiles)
  {
    tiles := [];
    for i := 0 to TerrainSlotCount
      invariant Present(TileSlots(data, i)) == Ok(tiles)
    {
      var tile := TileAt(data, i).value;
      assert TileSlots(data, i + 1) == TileSlots(data, i) + [TileAt(data, i)];
      PresentNext(TileSlots(data, i), TileAt(data, i));
      if tile.Some? {
        tiles := tiles + [tile.value];
      }
    }
  }

  /** The object loop of `decode_level`. */
  method ReadObjects(data: seq<byte>) returns (objects: seq<Object>)
    requires |data| == LevelSize
    ensures Objects(data, ObjectSlotCount) == Ok(objects)
  {
    objects := [];
    for i := 0 to ObjectSlotCount
      invariant Present(ObjectSlots(data, i)) == Ok(objects)
    {
      var slot := ObjectAt(data, i).value;
      assert ObjectSlots(data, i + 1) == ObjectSlots(data, i) + [ObjectAt(data, i)];
      PresentNext(ObjectSlots(data, i), ObjectAt(data, i));
      if slot.Some? {
        objects := objects + [slot.value];
      }
    }
  }

  /** `decode_level`: the length check, the parameters, the terrain and object
      loops, the three remaining scalars. Within 2048 bytes no read fails, so
      the `?` after each read never fires. */
  method DecodeLevel(data: seq<byte>) returns (r: Result<Level>)
    ensures r == LevelOf(data)
  {
    if |data| != LevelSize {
      return Err(BadLength);
    }
    var parameters := ReadParameters(data, NameOffset);
    var tiles := ReadTiles(data);
    var objects := ReadObjects(data);
    var startX := Read16(data, 0x18).value;
    var graphicsSet := Read16(data, 0x1a).value;
    var extendedGraphicsSet := Read16(data, 0x1c).value;
    return Ok(Level(parameters.value, startX, graphicsSet, extendedGraphicsSet, tiles, objects));
  }

  // The odd table

  /** The first `n` odd-table entries, entry `i` the 56 bytes at `56 * i`. */
  function Entries(data: seq<byte>, n: nat): (r: Result<seq<Parameters>>)
    requires OddtableEntrySize * n <= |data|
    ensures r.Ok? && |r.value| == n
    decreases n
  {
    if n == 0 then Ok([])
    else
      var start := OddtableEntrySize * (n - 1);
      var previous := Entries(data, n - 1).value;
      Ok(previous + [ParametersOf(data[start..start + OddtableEntrySize], OddtableNameOffset, SkillCount).value])
  }

  /** One more entry: a 56-byte slice, which always decodes. */
  lemma EntriesNext(data: seq<byte>, n: nat)
    requires OddtableEntrySize * (n + 1) <= |data|
    ensures var start := OddtableEntrySize * n;
      var entry := ParametersOf(data[start..start + OddtableEntrySize], OddtableNameOffset, SkillCount);
      && entry.Ok?
      && Entries(data, n + 1) == Ok(Entries(data, n).value + [entry.value])
  {
  }

  /** `read_oddtable` after the file is read: exactly 80 entries of 56 bytes. */
  function OddtableOf(data: seq<byte>): (r: Result<seq<Parameters>>)
    ensures r.Ok? <==> |data| == OddtableEntries * OddtableEntrySize
    ensures r.Ok? ==> |r.value| == OddtableEntries
  {
    if |data| != OddtableEntries * OddtableEntrySize then Err(BadLength)
    else Entries(data, OddtableEntries)
  }

  /** `read_oddtable`'s loop; no entry fails, every slice having 56 bytes. */
  method ReadOddtable(data: seq<byte>) returns (r: Result<seq<Parameters>>)
    ensures r == OddtableOf(data)
  {
    if |data| != OddtableEntries * OddtableEntrySize {
      return Err(BadLength);
    }
    var entries: seq<Parameters> := [];
    for i := 0 to OddtableEntries
      invariant Entries(data, i) == Ok(entries)
    {
      var start := OddtableEntrySize * i;
      EntriesNext(data, i);
      var entry := ReadParameters(data[start..start + OddtableEntrySize], OddtableNameOffset);
      entries := entries + [entry.value];
    }
    return Ok(entries);
  }
}

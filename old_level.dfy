/** The oldest level decoder of src/level.rs: the scalars and the name of the
    record, no terrain and no objects, and seven skill counts. */
module OldLevel {
  import opened Wrappers
  import opened Bytes
  import Format = Level
  import FileLevel

  datatype Level = Level(parameters: Format.Parameters, startX: nat, graphicsSet: nat, extendedGraphicsSet: nat)

  /** `Level::decode` as a function of the record; `read16` is the big-endian
      `read8(o) << 8 | read8(o + 1)` of the later revisions. */
  function LevelOf(data: seq<byte>): (r: Result<Level>)
    ensures r.Ok? <==> |data| == Format.LevelSize
    ensures r.Ok? ==> |r.value.parameters.skills| == Format.SkillCount && r.value.parameters.skills[7] == 0
  {
    if |data| != Format.LevelSize then Err(BadLength)
    else
      var parameters := Format.ParametersOf(data, Format.NameOffset, 7).value;
      var startX := FileLevel.Read16(data, 0x18).value;
      var graphicsSet := FileLevel.Read16(data, 0x1a).value;
      var extendedGraphicsSet := FileLevel.Read16(data, 0x1c).value;
      Ok(Level(parameters, startX, graphicsSet, extendedGraphicsSet))
  }

  /** The oldest decoder reads the scalars and the name exactly as the older one
      does, on the same records. */
  lemma LevelAgrees(data: seq<byte>)
    ensures LevelOf(data).Ok? == FileLevel.LevelOf(data).Ok?
    ensures LevelOf(data).Ok? ==>
      var older := FileLevel.LevelOf(data).value;
      LevelOf(data).value == Level(older.parameters, older.startX, older.graphicsSet, older.extendedGraphicsSet)
  {
  }
}

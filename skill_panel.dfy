/** The skill panel of src/game_data/skill_panel.rs: the panel bitmap with the
    minimap area made transparent, and the frame drawn around the minimap view. */
module SkillPanel {
  import opened Bytes
  import SpriteDecoder

  const PanelWidth: nat := 320
  const MinimapX: nat := 208
  const MinimapY: nat := 18
  const MinimapWidth: nat := 104
  const MinimapHeight: nat := 20
  const FrameWidth: nat := 22
  const FrameHeight: nat := 20
  const FrameColour: byte := 3

  datatype SkillPanel = SkillPanel(panel: SpriteDecoder.Bitmap, minimapFrame: SpriteDecoder.Bitmap)

  /** Cell `i` of a 320-wide panel lies in the minimap rectangle,
      columns 208 .. 311 and rows 18 .. 37. */
  predicate InMinimap(i: nat)
  {
    MinimapX <= i % PanelWidth < MinimapX + MinimapWidth && MinimapY <= i / PanelWidth < MinimapY + MinimapHeight
  }

  /** The cell of column `x` and row `y` is `x + 320 y`, and it is in the
      minimap rectangle exactly when `x` and `y` are. */
  lemma PanelCell(x: nat, y: nat)
    requires x < PanelWidth
    ensures (x + y * PanelWidth) % PanelWidth == x && (x + y * PanelWidth) / PanelWidth == y
    ensures InMinimap(x + y * PanelWidth) <==> MinimapX <= x < MinimapX + MinimapWidth && MinimapY <= y < MinimapY + MinimapHeight
  {
  }

  /** The largest cell the mask writes; the panel must be longer. */
  const LastMinimapCell: nat := MinimapX + MinimapWidth - 1 + (MinimapY + MinimapHeight - 1) * PanelWidth

  /** The loops of `SkillPanel::new`: every cell of the minimap rectangle becomes
      transparent, every other cell keeps its transparency. */
  method MaskMinimap(transparency: array<bool>)
    requires transparency.Length > LastMinimapCell
    modifies transparency
    ensures forall i :: 0 <= i < transparency.Length ==>
      transparency[i] == (InMinimap(i) || old(transparency[i]))
  {
    ghost var before := transparency[..];
    for y := MinimapY to MinimapY + MinimapHeight
      invariant forall i :: 0 <= i < transparency.Length ==>
        transparency[i] == ((InMinimap(i) && i / PanelWidth < y) || before[i])
    {
      for x := MinimapX to MinimapX + MinimapWidth
        invariant forall i :: 0 <= i < transparency.Length ==>
          transparency[i] == ((InMinimap(i) && (i / PanelWidth < y || (i / PanelWidth == y && i % PanelWidth < x))) || before[i])
      {
        PanelCell(x, y);
        transparency[x + y * PanelWidth] := true;
      }
    }
  }

  /** `SkillPanel::new`: the panel with its minimap area transparent, and the
      minimap frame. The pixel data of the panel is unchanged. */
  method New(panel: SpriteDecoder.Bitmap) returns (s: SkillPanel)
    requires |panel.transparency| > LastMinimapCell
    ensures s.panel.width == panel.width && s.panel.height == panel.height && s.panel.data == panel.data
    ensures |s.panel.transparency| == |panel.transparency|
    ensures forall i :: 0 <= i < |panel.transparency| ==>
      s.panel.transparency[i] == (InMinimap(i) || panel.transparency[i])
    ensures s.minimapFrame == MinimapFrame()
  {
    var transparency := new bool[|panel.transparency|](i requires 0 <= i < |panel.transparency| => panel.transparency[i]);
    MaskMinimap(transparency);
    var frame := CreateMinimapFrame();
    s := SkillPanel(panel.(transparency := transparency[..]), frame);
  }

  /** Pixel `i` of the 22x20 frame lies on its border. */
  predicate OnBorder(i: nat)
  {
    i < FrameWidth * FrameHeight &&
    (i % FrameWidth == 0 || i % FrameWidth == FrameWidth - 1 || i / FrameWidth == 0 || i / FrameWidth == FrameHeight - 1)
  }

  /** The frame: colour 3 and opaque on the border, colour 0 and transparent
      inside, and one more pixel past the end, also 0 and transparent. */
  function MinimapFrame(): (b: SpriteDecoder.Bitmap)
    ensures b.width == FrameWidth && b.height == FrameHeight
    ensures |b.data| == |b.transparency| == FrameWidth * FrameHeight + 1
    ensures b.data[FrameWidth * FrameHeight] == 0 && b.transparency[FrameWidth * FrameHeight]
  {
    var n := FrameWidth * FrameHeight + 1;
    SpriteDecoder.Bitmap(FrameWidth, FrameHeight,
      seq(n, i requires 0 <= i < n => if OnBorder(i) then FrameColour else 0),
      seq(n, i requires 0 <= i < n => !OnBorder(i)))
  }

  /** The pixel at column `x`, row `y` of the frame is on the border exactly when
      it is in the first or last column or row. */
  lemma FrameBorder(x: nat, y: nat)
    requires x < FrameWidth && y < FrameHeight
    ensures var b := MinimapFrame();
      && (b.data[FrameWidth * y + x] == FrameColour <==> (x == 0 || x == FrameWidth - 1 || y == 0 || y == FrameHeight - 1))
      && (b.transparency[FrameWidth * y + x] <==> b.data[FrameWidth * y + x] == 0)
  {
    assert (FrameWidth * y + x) % FrameWidth == x && (FrameWidth * y + x) / FrameWidth == y;
  }

  /** `create_minimap_frame`: both vectors start as 0 and transparent, and the
      loops paint the border row by row with a running index. */
  method CreateMinimapFrame() returns (b: SpriteDecoder.Bitmap)
    ensures b == MinimapFrame()
  {
    var n := FrameWidth * FrameHeight + 1;
    var data := new byte[n](_ => 0);
    var transparency := new bool[n](_ => true);
    var i := 0;
    for y := 0 to FrameHeight
      invariant i == FrameWidth * y
      invariant forall j :: 0 <= j < n ==> data[j] == (if j < i && OnBorder(j) then FrameColour else 0)
      invariant forall j :: 0 <= j < n ==> transparency[j] == !(j < i && OnBorder(j))
    {
      for x := 0 to FrameWidth
        invariant i == FrameWidth * y + x
        invariant forall j :: 0 <= j < n ==> data[j] == (if j < i && OnBorder(j) then FrameColour else 0)
        invariant forall j :: 0 <= j < n ==> transparency[j] == !(j < i && OnBorder(j))
      {
        assert i % FrameWidth == x && i / FrameWidth == y;
        if x == 0 || x == FrameWidth - 1 || y == 0 || y == FrameHeight - 1 {
          data[i] := FrameColour;
          transparency[i] := false;
        }
        i := i + 1;
      }
    }
    b := SpriteDecoder.Bitmap(FrameWidth, FrameHeight, data[..], transparency[..]);
  }
}

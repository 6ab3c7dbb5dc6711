/** The oldest planar decoders of src/sprites.rs: columns in the outer loop, the
    plane data must have exactly the planes' length, and a sprite checks the
    length of all its frames before decoding any. */
module Sprites {
  import opened Wrappers
  import opened Bytes
  import opened Planar
  import FileSprite

  type Bitmap = FileSprite.Bitmap
  type Sprite = FileSprite.Sprite

  /** `Bitmap::read_planar`; `bpp` outside 1..7 is a failed assertion in the
      source, so a precondition here. */
  function BitmapOf(width: nat, height: nat, bpp: nat, data: seq<byte>): (r: Result<Bitmap>)
    requires 0 < bpp < 8
    ensures r.Ok? <==> (width * height) % 8 == 0 && |data| == (width * height / 8) * bpp
    ensures (width * height) % 8 != 0 ==> r == Err(BadDimensions)
    ensures r.Ok? ==> r.value.width == width && r.value.height == height && |r.value.data| == width * height
    ensures r.Ok? ==> forall i :: 0 <= i < width * height ==> r.value.data[i] < Pow2(bpp)
  {
    if (width * height) % 8 != 0 then Err(BadDimensions)
    else if |data| != (width * height / 8) * bpp then Err(BadLength)
    else Ok(FileSprite.Bitmap(width, height, Pixels(width * height, bpp, data).value))
  }

  /** Where the oldest decoder succeeds, the older one succeeds with the same
      bitmap; the older one also accepts longer data, which the oldest rejects. */
  lemma BitmapAgrees(width: nat, height: nat, bpp: nat, data: seq<byte>)
    requires 0 < bpp < 8
    ensures BitmapOf(width, height, bpp, data).Ok? ==>
      BitmapOf(width, height, bpp, data) == FileSprite.BitmapOf(width, height, bpp, data)
    ensures FileSprite.BitmapOf(width, height, bpp, data).Ok? && |data| == (width * height / 8) * bpp ==>
      BitmapOf(width, height, bpp, data) == FileSprite.BitmapOf(width, height, bpp, data)
  {
  }

  /** `Bitmap::read_planar`: the length checks, then the column-major plane loop,
      whose reads the exact length keeps in bounds. */
  method ReadBitmapPlanar(width: nat, height: nat, bpp: nat, data: seq<byte>) returns (r: Result<Bitmap>)
    requires 0 < bpp < 8
    ensures r == BitmapOf(width, height, bpp, data)
  {
    if (width * height) % 8 != 0 {
      return Err(BadDimensions);
    }
    if |data| != (width * height / 8) * bpp {
      return Err(BadLength);
    }
    var pixels := new byte[width * height](_ => 0);
    var ok := FileSprite.ReadPlanes(pixels, width, height, bpp, data);
    assert ok;
    return Ok(FileSprite.Bitmap(width, height, pixels[..]));
  }

  // `Sprite::read_planar`

  /** The frame of `frameSize` bytes at `start`, which the length check has
      already placed inside `data`. */
  function FrameAt(width: nat, height: nat, bpp: nat, data: seq<byte>, start: nat, frameSize: nat): (r: Result<Bitmap>)
    requires 0 < bpp < 8 && start + frameSize <= |data|
    ensures r.Ok? <==> (width * height) % 8 == 0 && frameSize == (width * height / 8) * bpp
  {
    BitmapOf(width, height, bpp, data[start..start + frameSize])
  }

  /** The first `count` frames, frame `i` the `frameSize` bytes at `i * frameSize`. */
  function Frames(count: nat, width: nat, height: nat, bpp: nat, data: seq<byte>, frameSize: nat): (r: Result<seq<Bitmap>>)
    requires count > 0 ==> 0 < bpp < 8
    requires frameSize * count <= |data|
    ensures r.Ok? ==> |r.value| == count
    decreases count
  {
    if count == 0 then Ok([])
    else
      assert frameSize * (count - 1) + frameSize == frameSize * count;
      var previous :- Frames(count - 1, width, height, bpp, data, frameSize);
      var frame :- FrameAt(width, height, bpp, data, (count - 1) * frameSize, frameSize);
      Ok(previous + [frame])
  }

  /** `Sprite::read_planar` as a function of its inputs: the dimension check and
      the length check of all frames come first. */
  function SpriteOf(frameCount: nat, width: nat, height: nat, bpp: nat, data: seq<byte>): (r: Result<Sprite>)
    requires bpp < 8 && (frameCount > 0 && (width * height) % 8 == 0 ==> bpp > 0)
    ensures r.Ok? ==> r.value.width == width && r.value.height == height && |r.value.frames| == frameCount
  {
    if (width * height) % 8 != 0 then Err(BadDimensions)
    else
      var frameSize := FileSprite.FrameSize(width, height, bpp);
      if |data| < frameSize * frameCount then Err(OutOfBounds)
      else
        var frames :- Frames(frameCount, width, height, bpp, data, frameSize);
        Ok(FileSprite.Sprite(width, height, frames))
  }

  /** Frame `i` of `count` lies inside data that holds all `count` frames. */
  lemma FrameSlot(i: nat, count: nat, frameSize: nat, length: nat)
    requires i < count && frameSize * count <= length
    ensures i * frameSize >= 0 && i * frameSize + frameSize == frameSize * (i + 1) <= length
  {
    MulMonotone(i + 1, count, frameSize);
  }

  /** The body of the frame loop: the frame at `start`. */
  method ReadFrame(width: nat, height: nat, bpp: nat, data: seq<byte>, start: nat, frameSize: nat)
    returns (r: Result<Bitmap>)
    requires 0 < bpp < 8 && start + frameSize <= |data|
    ensures r == FrameAt(width, height, bpp, data, start, frameSize)
  {
    r := ReadBitmapPlanar(width, height, bpp, data[start..start + frameSize]);
  }

  /** `Sprite::read_planar`: the two checks, then one bitmap per frame. */
  method ReadSpritePlanar(frameCount: nat, width: nat, height: nat, bpp: nat, data: seq<byte>) returns (r: Result<Sprite>)
    requires bpp < 8 && (frameCount > 0 && (width * height) % 8 == 0 ==> bpp > 0)
    ensures r == SpriteOf(frameCount, width, height, bpp, data)
  {
    if (width * height) % 8 != 0 {
      return Err(BadDimensions);
    }
    var frameSize := width * height / 8 * bpp;
    if |data| < frameSize * frameCount {
      return Err(OutOfBounds);
    }
    var frames: seq<Bitmap> := [];
    var i := 0;
    while i < frameCount
      invariant i <= frameCount
      invariant frameSize * i <= |data|
      invariant Frames(i, width, height, bpp, data, frameSize) == Ok(frames)
    {
      FrameSlot(i, frameCount, frameSize, |data|);
      var start := i * frameSize;
      var frame := ReadFrame(width, height, bpp, data, start, frameSize);
      // The `?` on each frame never fires: every frame has exactly its length.
      assert frame.Ok?;
      frames := frames + [frame.value];
      i := i + 1;
    }
    return Ok(FileSprite.Sprite(width, height, frames));
  }

  /** Once the lengths are checked, every frame decodes: each has exactly the
      length of a frame. */
  lemma {:induction false} FramesSucceed(count: nat, width: nat, height: nat, bpp: nat, data: seq<byte>)
    requires count > 0 ==> 0 < bpp < 8
    requires (width * height) % 8 == 0
    requires FileSprite.FrameSize(width, height, bpp) * count <= |data|
    ensures Frames(count, width, height, bpp, data, FileSprite.FrameSize(width, height, bpp)).Ok?
    decreases count
  {
    var frameSize := FileSprite.FrameSize(width, height, bpp);
    if count > 0 {
      assert frameSize * (count - 1) + frameSize == frameSize * count;
      FramesSucceed(count - 1, width, height, bpp, data);
    }
  }

  /** The sprite fails exactly on bad dimensions or data shorter than all frames. */
  lemma SpriteSucceeds(frameCount: nat, width: nat, height: nat, bpp: nat, data: seq<byte>)
    requires bpp < 8 && (frameCount > 0 && (width * height) % 8 == 0 ==> bpp > 0)
    ensures SpriteOf(frameCount, width, height, bpp, data).Ok? <==>
      (width * height) % 8 == 0 && FileSprite.FrameSize(width, height, bpp) * frameCount <= |data|
  {
    if (width * height) % 8 == 0 && FileSprite.FrameSize(width, height, bpp) * frameCount <= |data| {
      FramesSucceed(frameCount, width, height, bpp, data);
    }
  }

  /** Frame by frame, the oldest decoder reads what the older one reads. */
  lemma {:induction false} FramesAgree(count: nat, width: nat, height: nat, bpp: nat, data: seq<byte>)
    requires count > 0 ==> 0 < bpp < 8
    requires (width * height) % 8 == 0
    requires FileSprite.FrameSize(width, height, bpp) * count <= |data|
    ensures var frameSize := FileSprite.FrameSize(width, height, bpp);
      Frames(count, width, height, bpp, data, frameSize) == FileSprite.Frames(count, width, height, bpp, data, frameSize)
    decreases count
  {
    var frameSize := FileSprite.FrameSize(width, height, bpp);
    if count > 0 {
      FrameSlot(count - 1, count, frameSize, |data|);
      FramesAgree(count - 1, width, height, bpp, data);
      FrameAgrees(width, height, bpp, data, (count - 1) * frameSize);
    }
  }

  /** A frame inside `data` decodes alike in both revisions. */
  lemma FrameAgrees(width: nat, height: nat, bpp: nat, data: seq<byte>, start: nat)
    requires 0 < bpp < 8 && (width * height) % 8 == 0
    requires start + FileSprite.FrameSize(width, height, bpp) <= |data|
    ensures var frameSize := FileSprite.FrameSize(width, height, bpp);
      FrameAt(width, height, bpp, data, start, frameSize) == FileSprite.FrameAt(width, height, bpp, data, start, frameSize)
  {
    var frameSize := FileSprite.FrameSize(width, height, bpp);
    BitmapAgrees(width, height, bpp, data[start..start + frameSize]);
  }

  /** With dimensions that are a multiple of 8, the oldest sprite decoder returns
      exactly what the older one returns, errors included. */
  lemma SpriteAgrees(frameCount: nat, width: nat, height: nat, bpp: nat, data: seq<byte>)
    requires bpp < 8 && (frameCount > 0 ==> bpp > 0) && (width * height) % 8 == 0
    ensures SpriteOf(frameCount, width, height, bpp, data) == FileSprite.SpriteOf(frameCount, width, height, bpp, data)
  {
    var frameSize := FileSprite.FrameSize(width, height, bpp);
    if frameSize * frameCount <= |data| {
      FramesAgree(frameCount, width, height, bpp, data);
    } else {
      FileShort(frameCount, width, height, bpp, data);
    }
  }

  /** The older decoder also fails, with `OutOfBounds`, when the data is shorter
      than all frames: at the latest the last frame does not fit. */
  lemma FileShort(frameCount: nat, width: nat, height: nat, bpp: nat, data: seq<byte>)
    requires (width * height) % 8 == 0 && bpp <= 8
    requires |data| < FileSprite.FrameSize(width, height, bpp) * frameCount
    ensures FileSprite.SpriteOf(frameCount, width, height, bpp, data) == Err(OutOfBounds)
  {
    var frameSize := FileSprite.FrameSize(width, height, bpp);
    var k := frameCount - 1;
    assert k * frameSize + frameSize == frameSize * frameCount;
    var f := FileSprite.Frames(k, width, height, bpp, data, frameSize);
    if f.Ok? {
      FileSprite.FramesNext(k, width, height, bpp, data, frameSize, f.value);
    } else {
      FileSprite.FramesStop(k, frameCount, width, height, bpp, data, frameSize);
      FailsOutOfBounds(k, width, height, bpp, data, frameSize);
    }
  }

  /** With valid dimensions and depth, the only way the older decoder's frames
      fail is `OutOfBounds`: a frame past the end or too short for its planes. */
  lemma {:induction false} FailsOutOfBounds(k: nat, width: nat, height: nat, bpp: nat, data: seq<byte>, frameSize: nat)
    requires (width * height) % 8 == 0 && bpp <= 8
    ensures FileSprite.Frames(k, width, height, bpp, data, frameSize).Err? ==>
      FileSprite.Frames(k, width, height, bpp, data, frameSize) == Err(OutOfBounds)
    decreases k
  {
    if k > 0 {
      FailsOutOfBounds(k - 1, width, height, bpp, data, frameSize);
    }
  }
}

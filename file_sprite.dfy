/** The older planar decoders of src/file/sprite.rs: no transparency, columns in
    the outer loop, and a frame size computed from the dimensions. */
module FileSprite {
  import opened Wrappers
  import opened Bytes
  import opened Planar
  import SpriteDecoder

  datatype Bitmap = Bitmap(width: nat, height: nat, data: seq<byte>)

  datatype Sprite = Sprite(width: nat, height: nat, frames: seq<Bitmap>)

  /** `Bitmap::read_planar` as a function of its inputs. */
  function BitmapOf(width: nat, height: nat, bpp: nat, data: seq<byte>): (r: Result<Bitmap>)
    ensures r.Ok? ==> r.value.width == width && r.value.height == height
    ensures r.Ok? ==> |r.value.data| == width * height
  {
    if bpp > 8 then Err(BadBpp)
    else if (width * height) % 8 != 0 then Err(BadDimensions)
    else
      var pixels :- Pixels(width * height, bpp, data);
      Ok(Bitmap(width, height, pixels))
  }

  /** The older decoder agrees with the current one under `Black` transparency:
      the same errors, and the same pixels on success. */
  lemma BitmapAgrees(width: nat, height: nat, bpp: nat, data: seq<byte>)
    ensures var old_ := BitmapOf(width, height, bpp, data);
      var new_ := SpriteDecoder.BitmapOf(width, height, bpp, data, SpriteDecoder.Black);
      && (old_.Ok? <==> new_.Ok?)
      && (old_.Err? ==> old_.error == new_.error)
      && (old_.Ok? ==> old_.value.data == new_.value.data)
  {
  }

  /** The inner loop: column `x`, top to bottom. On success the last byte it
      read, that of the bottom pixel, lies inside `data`. */
  method OrColumn(pixels: array<byte>, data: seq<byte>, planeSize: nat, plane: nat, n: nat,
    width: nat, height: nat, x: nat)
    returns (ok: bool)
    requires pixels.Length == n == 8 * planeSize && n == width * height && x < width && plane < 8
    requires pixels[..] == ColumnPartial(data, planeSize, plane, n, width, x, 0)
    modifies pixels
    ensures !ok ==> |data| < planeSize * plane + planeSize
    ensures ok ==> pixels[..] == ColumnPartial(data, planeSize, plane, n, width, x, height)
    ensures ok && height > 0 ==> planeSize * plane + ((height - 1) * width + x) / 8 < |data|
  {
    var base := planeSize * plane;
    var y := 0;
    while y < height
      invariant y <= height
      invariant pixels[..] == ColumnPartial(data, planeSize, plane, n, width, x, y)
      invariant y > 0 ==> base + ((y - 1) * width + x) / 8 < |data|
    {
      ok := OrCell(pixels, data, planeSize, plane, n, width, height, x, y, base);
      if !ok {
        return false;
      }
      y := y + 1;
    }
    return true;
  }

  /** The body of the inner loop: pixel `(x, y)` gets its bit of plane `plane`,
      unless the byte holding that bit lies past the end of `data`. */
  method OrCell(pixels: array<byte>, data: seq<byte>, planeSize: nat, plane: nat, n: nat,
    width: nat, height: nat, x: nat, y: nat, base: nat)
    returns (ok: bool)
    requires pixels.Length == n == 8 * planeSize && n == width * height && x < width && y < height && plane < 8
    requires base == planeSize * plane
    requires pixels[..] == ColumnPartial(data, planeSize, plane, n, width, x, y)
    modifies pixels
    ensures !ok ==> |data| < base + planeSize
    ensures ok ==> base + (y * width + x) / 8 < |data|
    ensures ok ==> pixels[..] == ColumnPartial(data, planeSize, plane, n, width, x, y + 1)
  {
    InBounds(y, x, width, height);
    var pixel := y * width + x;
    if base + pixel / 8 >= |data| {
      return false;
    }
    var b := data[base + pixel / 8];
    var bit := Bit(b, 7 - pixel % 8);
    var shifted: nat := if bit == 0 then 0 else Pow2(plane);
    assert shifted == PlaneWeight(data, planeSize, plane, pixel);
    ColumnOrStep(data, planeSize, plane, n, width, height, x, y, pixel);
    var v: byte := Or(pixels[pixel], shifted);
    ghost var before := pixels[..];
    pixels[pixel] := v;
    assert pixels[..] == before[pixel := v];
    return true;
  }

  /** One pass of the plane loop, column by column: it fails exactly when the
      plane does not fit in `data`. */
  method OrColumnPlane(pixels: array<byte>, width: nat, height: nat, data: seq<byte>, plane: nat) returns (ok: bool)
    requires pixels.Length == width * height && (width * height) % 8 == 0 && plane < 8
    requires pixels[..] == Stage(data, width * height / 8, plane, width * height)
    modifies pixels
    ensures ok <==> (width * height / 8) * (plane + 1) <= |data|
    ensures ok ==> pixels[..] == Stage(data, width * height / 8, plane + 1, width * height)
  {
    var n := width * height;
    var planeSize := n / 8;
    var base := planeSize * plane;
    assert planeSize * (plane + 1) == base + planeSize;
    if width > 0 {
      ColumnEnds(data, planeSize, plane, n, width);
    }
    var x := 0;
    while x < width
      invariant x <= width
      invariant width > 0 ==> pixels[..] == ColumnPartial(data, planeSize, plane, n, width, x, 0)
      invariant x > 0 && height > 0 ==> base + ((height - 1) * width + x - 1) / 8 < |data|
    {
      ok := OrColumn(pixels, data, planeSize, plane, n, width, height, x);
      if !ok {
        return false;
      }
      ColumnNext(data, planeSize, plane, n, width, height, x);
      x := x + 1;
    }
    if n > 0 {
      assert (height - 1) * width + width == n;
      assert (n - 1) / 8 == planeSize - 1;
    }
    return true;
  }

  /** The plane loop of `Bitmap::read_planar`. */
  method ReadPlanes(pixels: array<byte>, width: nat, height: nat, bpp: nat, data: seq<byte>) returns (ok: bool)
    requires bpp <= 8 && pixels.Length == width * height && (width * height) % 8 == 0
    requires forall i :: 0 <= i < pixels.Length ==> pixels[i] == 0
    modifies pixels
    ensures ok <==> Pixels(width * height, bpp, data).Ok?
    ensures ok ==> pixels[..] == Pixels(width * height, bpp, data).value
  {
    var n := width * height;
    var planeSize := n / 8;
    assert pixels[..] == Stage(data, planeSize, 0, n);
    assert planeSize * bpp == bpp * planeSize;
    var plane := 0;
    while plane < bpp
      invariant plane <= bpp && planeSize * plane <= |data|
      invariant pixels[..] == Stage(data, planeSize, plane, n)
    {
      ok := OrColumnPlane(pixels, width, height, data, plane);
      if !ok {
        MulMonotone(plane + 1, bpp, planeSize);
        return false;
      }
      plane := plane + 1;
    }
    return true;
  }

  /** `Bitmap::read_planar`. */
  method ReadBitmapPlanar(width: nat, height: nat, bpp: nat, data: seq<byte>) returns (r: Result<Bitmap>)
    ensures r == BitmapOf(width, height, bpp, data)
  {
    if bpp > 8 {
      return Err(BadBpp);
    }
    if (width * height) % 8 != 0 {
      return Err(BadDimensions);
    }
    var pixels := new byte[width * height](_ => 0);
    var ok := ReadPlanes(pixels, width, height, bpp, data);
    if !ok {
      return Err(OutOfBounds);
    }
    return Ok(Bitmap(width, height, pixels[..]));
  }

  // `Sprite::read_planar`

  /** The bytes of one frame: the planes of `width * height` pixels, the pixel
      count divided by 8 first (truncating). */
  function FrameSize(width: nat, height: nat, bpp: nat): (r: nat)
    ensures (width * height) % 8 == 0 ==> r * 8 == width * height * bpp
  {
    assert (width * height / 8) * bpp * 8 == (width * height / 8 * 8) * bpp;
    width * height / 8 * bpp
  }

  /** The frame at `start`: a bitmap decoded from the `frameSize` bytes there. */
  function FrameAt(width: nat, height: nat, bpp: nat, data: seq<byte>, start: nat, frameSize: nat): (r: Result<Bitmap>)
    ensures start + frameSize > |data| ==> r == Err(OutOfBounds)
  {
    if start + frameSize > |data| then Err(OutOfBounds)
    else BitmapOf(width, height, bpp, data[start..start + frameSize])
  }

  /** The first `count` frames, frame `i` at `i * frameSize` from the start of
      `data`; the first frame that fails decides the error. */
  function Frames(count: nat, width: nat, height: nat, bpp: nat, data: seq<byte>, frameSize: nat): (r: Result<seq<Bitmap>>)
    ensures r.Ok? ==> |r.value| == count
    decreases count
  {
    if count == 0 then Ok([])
    else
      var previous :- Frames(count - 1, width, height, bpp, data, frameSize);
      var frame :- FrameAt(width, height, bpp, data, (count - 1) * frameSize, frameSize);
      Ok(previous + [frame])
  }

  /** On success, frame `i` is the bitmap decoded from the bytes at `i * frameSize`. */
  lemma {:induction false} FramesLayout(count: nat, width: nat, height: nat, bpp: nat, data: seq<byte>, frameSize: nat)
    requires Frames(count, width, height, bpp, data, frameSize).Ok?
    ensures var frames := Frames(count, width, height, bpp, data, frameSize).value;
      forall i :: 0 <= i < count ==> FrameAt(width, height, bpp, data, i * frameSize, frameSize) == Ok(frames[i])
    decreases count
  {
    if count > 0 {
      FramesLayout(count - 1, width, height, bpp, data, frameSize);
    }
  }

  /** Once a frame fails, every longer run of frames fails with its error. */
  lemma {:induction false} FramesStop(k: nat, count: nat, width: nat, height: nat, bpp: nat, data: seq<byte>, frameSize: nat)
    requires k <= count && Frames(k, width, height, bpp, data, frameSize).Err?
    ensures Frames(count, width, height, bpp, data, frameSize) == Frames(k, width, height, bpp, data, frameSize)
    decreases count
  {
    if k < count {
      FramesStop(k, count - 1, width, height, bpp, data, frameSize);
    }
  }

  lemma FramesNext(i: nat, width: nat, height: nat, bpp: nat, data: seq<byte>, frameSize: nat, frames: seq<Bitmap>)
    requires Frames(i, width, height, bpp, data, frameSize) == Ok(frames)
    ensures var f := FrameAt(width, height, bpp, data, i * frameSize, frameSize);
      Frames(i + 1, width, height, bpp, data, frameSize) == if f.Err? then Err(f.error) else Ok(frames + [f.value])
  {
  }

  function SpriteOf(frameCount: nat, width: nat, height: nat, bpp: nat, data: seq<byte>): (r: Result<Sprite>)
    ensures r.Ok? ==> r.value.width == width && r.value.height == height && |r.value.frames| == frameCount
  {
    var frames :- Frames(frameCount, width, height, bpp, data, FrameSize(width, height, bpp));
    Ok(Sprite(width, height, frames))
  }

  /** The body of the frame loop: the `frameSize` bytes at `start`, if they are
      there, decoded as a bitmap. */
  method ReadFrame(width: nat, height: nat, bpp: nat, data: seq<byte>, start: nat, frameSize: nat)
    returns (r: Result<Bitmap>)
    ensures r == FrameAt(width, height, bpp, data, start, frameSize)
  {
    if start + frameSize > |data| {
      return Err(OutOfBounds);
    }
    r := ReadBitmapPlanar(width, height, bpp, data[start..start + frameSize]);
  }

  /** `Sprite::read_planar`: `frameCount` frames from the start of `data`. The
      caller's cursor `offset` advances by the bytes of all frames on success
      and stays put on failure. */
  method ReadSpritePlanar(frameCount: nat, width: nat, height: nat, bpp: nat, data: seq<byte>, offset: nat)
    returns (r: Result<Sprite>, newOffset: nat)
    ensures r == SpriteOf(frameCount, width, height, bpp, data)
    ensures newOffset == if r.Ok? then offset + FrameSize(width, height, bpp) * frameCount else offset
  {
    var frameSize := width * height / 8 * bpp;
    var frames: seq<Bitmap> := [];
    var i := 0;
    while i < frameCount
      invariant i <= frameCount
      invariant Frames(i, width, height, bpp, data, frameSize) == Ok(frames)
    {
      MulNat(i, frameSize);
      var start := i * frameSize;
      FramesNext(i, width, height, bpp, data, frameSize, frames);
      var frame := ReadFrame(width, height, bpp, data, start, frameSize);
      if frame.Err? {
        FramesStop(i + 1, frameCount, width, height, bpp, data, frameSize);
        return Err(frame.error), offset;
      }
      frames := frames + [frame.value];
      i := i + 1;
    }
    MulNat(frameSize, frameCount);
    return Ok(Sprite(width, height, frames)), offset + frameSize * frameCount;
  }

  /** The older sprite decoder reads what the current one reads from offset 0
      with the frame size of the dimensions and `Black` transparency: the same
      errors, and the same pixels in every frame. */
  lemma {:induction false} FramesAgree(count: nat, width: nat, height: nat, bpp: nat, data: seq<byte>, frameSize: nat)
    ensures var old_ := Frames(count, width, height, bpp, data, frameSize);
      var new_ := SpriteDecoder.Frames(count, width, height, bpp, data, 0, frameSize, SpriteDecoder.Black);
      && (old_.Ok? <==> new_.Ok?)
      && (old_.Err? ==> old_.error == new_.error)
      && (old_.Ok? ==> forall i :: 0 <= i < count ==> old_.value[i].data == new_.value[i].data)
    decreases count
  {
    if count > 0 {
      FramesAgree(count - 1, width, height, bpp, data, frameSize);
      var start := (count - 1) * frameSize;
      assert 0 + (count - 1) * frameSize == start;
      FrameAgrees(width, height, bpp, data, start, frameSize);
    }
  }

  /** One frame decodes alike in both revisions. */
  lemma FrameAgrees(width: nat, height: nat, bpp: nat, data: seq<byte>, start: nat, frameSize: nat)
    ensures var old_ := FrameAt(width, height, bpp, data, start, frameSize);
      var new_ := SpriteDecoder.FrameAt(width, height, bpp, data, start, frameSize, SpriteDecoder.Black);
      && (old_.Ok? <==> new_.Ok?)
      && (old_.Err? ==> old_.error == new_.error)
      && (old_.Ok? ==> old_.value.data == new_.value.data)
  {
    if start + frameSize <= |data| {
      BitmapAgrees(width, height, bpp, data[start..start + frameSize]);
    }
  }
}

/** The planar bitmap and sprite decoders (src/game_data/file/sprite.rs; the free
    functions of src/game_data/file/sprite_helper.rs are the same code). */
module SpriteDecoder {
  import opened Wrappers
  import opened Bytes
  import opened Planar

  datatype Bitmap = Bitmap(width: nat, height: nat, data: seq<byte>, transparency: seq<bool>)

  datatype Sprite = Sprite(width: nat, height: nat, frames: seq<Bitmap>)

  /** Where the transparency of a bitmap comes from: pixel value 0, a mask plane
      given by the caller, or a mask plane at an offset into the bitmap's own data. */
  datatype TransparencyEncoding = Black | PlanarAt(mask: seq<byte>) | PlanarOffset(offset: nat)

  /** The transparency of `n` decoded pixels. `PlanarOffset(o)` is `PlanarAt` on the
      data from `o` on, and fails when `o` is past its end. */
  function Transparency(encoding: TransparencyEncoding, data: seq<byte>, pixels: seq<byte>): (r: Result<seq<bool>>)
    requires |pixels| % 8 == 0
    ensures r.Ok? ==> |r.value| == |pixels|
    ensures encoding.Black? ==> r.Ok? && forall i :: 0 <= i < |pixels| ==> (r.value[i] <==> pixels[i] == 0)
  {
    match encoding
    case Black => Ok(seq(|pixels|, i requires 0 <= i < |pixels| => pixels[i] == 0))
    case PlanarAt(mask) => MaskTransparency(mask, |pixels|)
    case PlanarOffset(o) => if o > |data| then Err(OutOfBounds) else MaskTransparency(data[o..], |pixels|)
  }

  /** `Bitmap::read_planar` as a function of its inputs. */
  function BitmapOf(width: nat, height: nat, bpp: nat, data: seq<byte>, encoding: TransparencyEncoding): (r: Result<Bitmap>)
    ensures bpp > 8 ==> r == Err(BadBpp)
    ensures bpp <= 8 && (width * height) % 8 != 0 ==> r == Err(BadDimensions)
    ensures r.Ok? ==> r.value.width == width && r.value.height == height
    ensures r.Ok? ==> |r.value.data| == width * height && |r.value.transparency| == width * height
    ensures r.Ok? ==> forall i :: 0 <= i < width * height ==> r.value.data[i] < Pow2(bpp)
  {
    if bpp > 8 then Err(BadBpp)
    else if (width * height) % 8 != 0 then Err(BadDimensions)
    else
      var pixels :- Pixels(width * height, bpp, data);
      var transparency :- Transparency(encoding, data, pixels);
      Ok(Bitmap(width, height, pixels, transparency))
  }

  /** One pass of the plane loop: OR plane `plane`'s bit into every pixel, row by
      row. Fails at the first plane byte past the end of `data`, which exists
      exactly when the plane does not fit. */
  method OrPlane(pixels: array<byte>, width: nat, height: nat, data: seq<byte>, plane: nat) returns (ok: bool)
    requires pixels.Length == width * height && (width * height) % 8 == 0
    requires plane < 8 && (width * height / 8) * plane <= |data|
    requires pixels[..] == Stage(data, width * height / 8, plane, width * height)
    modifies pixels
    ensures ok <==> (width * height / 8) * (plane + 1) <= |data|
    ensures ok ==> pixels[..] == Stage(data, width * height / 8, plane + 1, width * height)
  {
    var n := width * height;
    var planeSize := n / 8;
    var base := planeSize * plane;
    assert planeSize * (plane + 1) == base + planeSize;
    PartialEnds(data, planeSize, plane, n);
    var y := 0;
    var row := 0;
    while y < height
      invariant y <= height && row == y * width && row <= n
      invariant row > 0 ==> base + (row - 1) / 8 < |data|
      invariant pixels[..] == Partial(data, planeSize, plane, n, row)
    {
      MulMonotone(y + 1, height, width);
      assert row + width <= n by {
        assert (y + 1) * width == row + width;
        assert height * width == n;
      }
      var rowOk := OrRow(pixels, data, planeSize, plane, n, row, width);
      if !rowOk {
        return false;
      }
      y := y + 1;
      row := row + width;
    }
    assert row == n by {
      assert height * width == n;
    }
    assert n > 0 ==> (n - 1) / 8 == planeSize - 1;
    return true;
  }

  /** The inner loop of `OrPlane`: the pixels of the row starting at pixel `row`. */
  method OrRow(pixels: array<byte>, data: seq<byte>, planeSize: nat, plane: nat, n: nat, row: nat, width: nat)
    returns (ok: bool)
    requires pixels.Length == n == 8 * planeSize && plane < 8 && row + width <= n
    requires planeSize * plane <= |data|
    requires row > 0 ==> planeSize * plane + (row - 1) / 8 < |data|
    requires pixels[..] == Partial(data, planeSize, plane, n, row)
    modifies pixels
    ensures ok <==> width == 0 || planeSize * plane + (row + width - 1) / 8 < |data|
    ensures ok ==> pixels[..] == Partial(data, planeSize, plane, n, row + width)
  {
    var base := planeSize * plane;
    var x := 0;
    while x < width
      invariant x <= width
      invariant row + x > 0 ==> base + (row + x - 1) / 8 < |data|
      invariant pixels[..] == Partial(data, planeSize, plane, n, row + x)
    {
      var more := OrPixel(pixels, data, planeSize, plane, n, row + x, base);
      if !more {
        return false;
      }
      x := x + 1;
    }
    return true;
  }

  /** One pixel of that row: bit `plane` of the pixel is OR-ed in from its bit
      in the plane, which must lie within the data. */
  method OrPixel(pixels: array<byte>, data: seq<byte>, planeSize: nat, plane: nat, n: nat, pixel: nat, base: nat)
    returns (ok: bool)
    requires pixels.Length == n == 8 * planeSize && plane < 8 && pixel < n && base == planeSize * plane
    requires pixels[..] == Partial(data, planeSize, plane, n, pixel)
    modifies pixels
    ensures ok <==> base + pixel / 8 < |data|
    ensures ok ==> pixels[..] == Partial(data, planeSize, plane, n, pixel + 1)
  {
    if base + pixel / 8 >= |data| {
      return false;
    }
    var b := data[base + pixel / 8];
    var bit := Bit(b, 7 - pixel % 8);
    var shifted: nat := if bit == 0 then 0 else Pow2(plane);
    assert shifted == PlaneWeight(data, planeSize, plane, pixel);
    OrStep(data, planeSize, plane, n, pixel);
    var v: byte := Or(pixels[pixel], shifted);
    ghost var before := pixels[..];
    pixels[pixel] := v;
    assert pixels[..] == before[pixel := v];
    return true;
  }

  /** The `Black` encoding: a pixel is transparent iff its value is 0. */
  method BlackTransparency(pixels: array<byte>, transparency: array<bool>, width: nat, height: nat)
    requires pixels.Length == transparency.Length == width * height
    modifies transparency
    ensures forall i :: 0 <= i < width * height ==> (transparency[i] <==> pixels[i] == 0)
  {
    var n := width * height;
    var y := 0;
    var row := 0;
    while y < height
      invariant y <= height && row == y * width && row <= n
      invariant forall i :: 0 <= i < row ==> (transparency[i] <==> pixels[i] == 0)
    {
      MulMonotone(y + 1, height, width);
      assert row + width <= n by {
        assert (y + 1) * width == row + width;
        assert height * width == n;
      }
      var x := 0;
      while x < width
        invariant x <= width
        invariant forall i :: 0 <= i < row + x ==> (transparency[i] <==> pixels[i] == 0)
      {
        var pixel := row + x;
        transparency[pixel] := pixels[pixel] == 0;
        x := x + 1;
      }
      y := y + 1;
      row := row + width;
    }
    assert row == n by {
      assert height * width == n;
    }
  }

  /** A mask plane: a pixel is transparent iff its mask bit is 0. Fails at the
      first mask byte past the end of `mask`. */
  method ReadMask(transparency: array<bool>, width: nat, height: nat, mask: seq<byte>) returns (ok: bool)
    requires transparency.Length == width * height && (width * height) % 8 == 0
    modifies transparency
    ensures ok <==> width * height / 8 <= |mask|
    ensures ok ==> forall i :: 0 <= i < width * height ==> (transparency[i] <==> PlaneBit(mask, 0, i) == 0)
  {
    var n := width * height;
    var y := 0;
    var row := 0;
    while y < height
      invariant y <= height && row == y * width && row <= n
      invariant row > 0 ==> (row - 1) / 8 < |mask|
      invariant forall i :: 0 <= i < row ==> i / 8 < |mask| && (transparency[i] <==> PlaneBit(mask, 0, i) == 0)
    {
      MulMonotone(y + 1, height, width);
      assert row + width <= n by {
        assert (y + 1) * width == row + width;
        assert height * width == n;
      }
      var rowOk := MaskRow(transparency, mask, row, width);
      if !rowOk {
        return false;
      }
      y := y + 1;
      row := row + width;
    }
    assert row == n by {
      assert height * width == n;
    }
    assert n > 0 ==> (n - 1) / 8 == n / 8 - 1;
    return true;
  }

  /** The inner loop of `ReadMask`: the row starting at pixel `row`. */
  method MaskRow(transparency: array<bool>, mask: seq<byte>, row: nat, width: nat) returns (ok: bool)
    requires row + width <= transparency.Length
    requires row > 0 ==> (row - 1) / 8 < |mask|
    requires forall i :: 0 <= i < row ==> i / 8 < |mask| && (transparency[i] <==> PlaneBit(mask, 0, i) == 0)
    modifies transparency
    ensures ok <==> width == 0 || (row + width - 1) / 8 < |mask|
    ensures ok ==> forall i :: 0 <= i < row + width ==>
      i / 8 < |mask| && (transparency[i] <==> PlaneBit(mask, 0, i) == 0)
  {
    var x := 0;
    while x < width
      invariant x <= width
      invariant row + x > 0 ==> (row + x - 1) / 8 < |mask|
      invariant forall i :: 0 <= i < row + x ==> i / 8 < |mask| && (transparency[i] <==> PlaneBit(mask, 0, i) == 0)
    {
      var pixel := row + x;
      if pixel / 8 >= |mask| {
        return false;
      }
      var b := mask[pixel / 8];
      transparency[pixel] := Bit(b, 7 - pixel % 8) == 0;
      x := x + 1;
    }
    return true;
  }

  /** The plane loop of `Bitmap::read_planar`, on zeroed pixels. */
  method ReadPlanes(pixels: array<byte>, width: nat, height: nat, bpp: nat, data: seq<byte>) returns (ok: bool)
    requires bpp <= 8 && pixels.Length == width * height && (width * height) % 8 == 0
    requires forall i :: 0 <= i < pixels.Length ==> pixels[i] == 0
    modifies pixels
    ensures ok <==> Pixels(width * height, bpp, data).Ok?
    ensures ok ==> pixels[..] == Pixels(width * height, bpp, data).value
  {
    var n := width * height;
    var planeSize := n / 8;
    assert pixels[..] == Stage(data, planeSize, 0, n);
    assert planeSize * bpp == bpp * planeSize;
    var plane := 0;
    while plane < bpp
      invariant plane <= bpp && planeSize * plane <= |data|
      invariant pixels[..] == Stage(data, planeSize, plane, n)
    {
      ok := OrPlane(pixels, width, height, data, plane);
      if !ok {
        MulMonotone(plane + 1, bpp, planeSize);
        return false;
      }
      plane := plane + 1;
    }
    return true;
  }

  /** `Bitmap::read_planar`: the plane loop, then the transparency. */
  method ReadBitmapPlanar(width: nat, height: nat, bpp: nat, data: seq<byte>, encoding: TransparencyEncoding)
    returns (r: Result<Bitmap>)
    ensures r == BitmapOf(width, height, bpp, data, encoding)
  {
    if bpp > 8 {
      return Err(BadBpp);
    }
    if (width * height) % 8 != 0 {
      return Err(BadDimensions);
    }
    var n := width * height;
    var pixels := new byte[n](_ => 0);
    var transparency := new bool[n](_ => false);
    var ok := ReadPlanes(pixels, width, height, bpp, data);
    if !ok {
      return Err(OutOfBounds);
    }
    var t := ReadTransparency(pixels, transparency, width, height, data, encoding);
    if t.Err? {
      return Err(t.error);
    }
    return Ok(Bitmap(width, height, pixels[..], t.value));
  }

  /** The transparency half of `Bitmap::read_planar`: `PlanarOffset` is first
      turned into `PlanarAt` on the data from the offset on. */
  method ReadTransparency(pixels: array<byte>, transparency: array<bool>, width: nat, height: nat,
    data: seq<byte>, encoding: TransparencyEncoding)
    returns (r: Result<seq<bool>>)
    requires pixels.Length == transparency.Length == width * height && (width * height) % 8 == 0
    modifies transparency
    ensures r == Transparency(encoding, data, pixels[..])
    ensures r.Ok? ==> r.value == transparency[..]
  {
    var effective := encoding;
    if encoding.PlanarOffset? {
      if encoding.offset > |data| {
        return Err(OutOfBounds);
      }
      effective := PlanarAt(data[encoding.offset..]);
    }
    match effective {
      case Black =>
        BlackTransparency(pixels, transparency, width, height);
      case PlanarAt(mask) =>
        var ok := ReadMask(transparency, width, height, mask);
        if !ok {
          return Err(OutOfBounds);
        }
      case PlanarOffset(_) =>
        assert false;
    }
    assert transparency[..] == Transparency(encoding, data, pixels[..]).value;
    return Ok(transparency[..]);
  }

  // `Sprite::read_planar`

  /** The frame at `start`: a bitmap decoded from the `frameSize` bytes there. */
  function FrameAt(width: nat, height: nat, bpp: nat, data: seq<byte>, start: nat, frameSize: nat,
    encoding: TransparencyEncoding): (r: Result<Bitmap>)
    ensures start + frameSize > |data| ==> r == Err(OutOfBounds)
  {
    if start + frameSize > |data| then Err(OutOfBounds)
    else BitmapOf(width, height, bpp, data[start..start + frameSize], encoding)
  }

  /** The first `count` frames, frame `i` at `offset + i * frameSize`; the first
      frame that fails decides the error. */
  function Frames(count: nat, width: nat, height: nat, bpp: nat, data: seq<byte>, offset: nat,
    frameSize: nat, encoding: TransparencyEncoding): (r: Result<seq<Bitmap>>)
    ensures r.Ok? ==> |r.value| == count
    decreases count
  {
    if count == 0 then Ok([])
    else
      var previous :- Frames(count - 1, width, height, bpp, data, offset, frameSize, encoding);
      var frame :- FrameAt(width, height, bpp, data, offset + (count - 1) * frameSize, frameSize, encoding);
      Ok(previous + [frame])
  }

  /** On success, frame `i` is the bitmap decoded from the `frameSize` bytes at
      `offset + i * frameSize`. */
  lemma {:induction false} FramesLayout(count: nat, width: nat, height: nat, bpp: nat, data: seq<byte>,
    offset: nat, frameSize: nat, encoding: TransparencyEncoding)
    requires Frames(count, width, height, bpp, data, offset, frameSize, encoding).Ok?
    ensures var frames := Frames(count, width, height, bpp, data, offset, frameSize, encoding).value;
      forall i :: 0 <= i < count ==>
        FrameAt(width, height, bpp, data, offset + i * frameSize, frameSize, encoding) == Ok(frames[i])
    decreases count
  {
    if count > 0 {
      FramesLayout(count - 1, width, height, bpp, data, offset, frameSize, encoding);
    }
  }

  /** Once a frame fails, every longer run of frames fails with its error. */
  lemma {:induction false} FramesStop(k: nat, count: nat, width: nat, height: nat, bpp: nat, data: seq<byte>,
    offset: nat, frameSize: nat, encoding: TransparencyEncoding)
    requires k <= count && Frames(k, width, height, bpp, data, offset, frameSize, encoding).Err?
    ensures Frames(count, width, height, bpp, data, offset, frameSize, encoding)
      == Frames(k, width, height, bpp, data, offset, frameSize, encoding)
    decreases count
  {
    if k < count {
      FramesStop(k, count - 1, width, height, bpp, data, offset, frameSize, encoding);
    }
  }

  lemma FramesNext(i: nat, width: nat, height: nat, bpp: nat, data: seq<byte>, offset: nat,
    frameSize: nat, encoding: TransparencyEncoding, frames: seq<Bitmap>)
    requires Frames(i, width, height, bpp, data, offset, frameSize, encoding) == Ok(frames)
    ensures var f := FrameAt(width, height, bpp, data, offset + i * frameSize, frameSize, encoding);
      Frames(i + 1, width, height, bpp, data, offset, frameSize, encoding)
        == if f.Err? then Err(f.error) else Ok(frames + [f.value])
  {
  }

  function SpriteOf(frameCount: nat, width: nat, height: nat, bpp: nat, data: seq<byte>, offset: nat,
    frameSize: nat, encoding: TransparencyEncoding): (r: Result<Sprite>)
    ensures r.Ok? ==> r.value.width == width && r.value.height == height && |r.value.frames| == frameCount
  {
    var frames :- Frames(frameCount, width, height, bpp, data, offset, frameSize, encoding);
    Ok(Sprite(width, height, frames))
  }

  /** The body of the frame loop: the `frameSize` bytes at `start`, if they are
      there, decoded as a bitmap. */
  method ReadFrame(width: nat, height: nat, bpp: nat, data: seq<byte>, start: nat, frameSize: nat,
    encoding: TransparencyEncoding) returns (r: Result<Bitmap>)
    ensures r == FrameAt(width, height, bpp, data, start, frameSize, encoding)
  {
    if start + frameSize > |data| {
      return Err(OutOfBounds);
    }
    r := ReadBitmapPlanar(width, height, bpp, data[start..start + frameSize], encoding);
  }

  /** `Sprite::read_planar`: `frameCount` frames of `frameSize` bytes from `offset`
      on. The caller's cursor `offset` comes back advanced past the frames on
      success and untouched on failure. */
  method ReadSpritePlanar(frameCount: nat, width: nat, height: nat, bpp: nat, data: seq<byte>, offset: nat,
    frameSize: nat, encoding: TransparencyEncoding)
    returns (r: Result<Sprite>, newOffset: nat)
    ensures r == SpriteOf(frameCount, width, height, bpp, data, offset, frameSize, encoding)
    ensures newOffset == if r.Ok? then offset + frameSize * frameCount else offset
  {
    var frames: seq<Bitmap> := [];
    var i := 0;
    while i < frameCount
      invariant i <= frameCount
      invariant Frames(i, width, height, bpp, data, offset, frameSize, encoding) == Ok(frames)
    {
      MulNat(i, frameSize);
      var start := offset + i * frameSize;
      FramesNext(i, width, height, bpp, data, offset, frameSize, encoding, frames);
      var frame := ReadFrame(width, height, bpp, data, start, frameSize, encoding);
      if frame.Err? {
        FramesStop(i + 1, frameCount, width, height, bpp, data, offset, frameSize, encoding);
        return Err(frame.error), offset;
      }
      frames := frames + [frame.value];
      i := i + 1;
    }
    MulNat(frameSize, frameCount);
    return Ok(Sprite(width, height, frames)), offset + frameSize * frameCount;
  }
}

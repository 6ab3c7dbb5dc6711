/** Planar bitmaps, shared by every revision of the sprite decoders: a bitmap of
    `n` pixels with `bpp` bits per pixel is stored as `bpp` planes of `n / 8`
    bytes, back to back; each plane byte holds one bit of eight consecutive pixels,
    the first pixel in the most significant bit, and plane `p` supplies bit `p`
    of every pixel. */
module Planar {
  import opened Wrappers
  import opened Bytes

  /** `(data[base + i / 8] >> (7 - i % 8)) & 1`: the bit of pixel `i` in the plane
      that starts at `base`. A byte past the end reads as 0 here; the decoders
      fail before they would use it. */
  function PlaneBit(data: seq<byte>, base: nat, i: nat): bit
  {
    if base + i / 8 < |data| then Bit(data[base + i / 8], 7 - i % 8) else 0
  }

  /** Pixel `i` assembled from the first `planes` planes: the sum over `p` of
      `PlaneBit(data, planeSize * p, i) << p`. */
  function PixelValue(data: seq<byte>, planeSize: nat, planes: nat, i: nat): (v: nat)
    ensures v < Pow2(planes)
    decreases planes
  {
    if planes == 0 then 0
    else
      PixelValue(data, planeSize, planes - 1, i)
        + Pow2(planes - 1) * PlaneBit(data, planeSize * (planes - 1), i)
  }

  /** `PixelValue` for at most eight planes, which fits a byte. */
  function PixelByte(data: seq<byte>, planeSize: nat, planes: nat, i: nat): (v: byte)
    requires planes <= 8
    ensures v == PixelValue(data, planeSize, planes, i)
  {
    Pow2Monotone(planes, 8);
    Pow2Eight();
    PixelValue(data, planeSize, planes, i)
  }

  /** The `n` pixel values once the first `planes` planes are in. */
  function Stage(data: seq<byte>, planeSize: nat, planes: nat, n: nat): (s: seq<byte>)
    requires planes <= 8
    ensures |s| == n
    ensures forall i :: 0 <= i < n ==> s[i] == PixelValue(data, planeSize, planes, i)
  {
    seq(n, i requires 0 <= i < n => PixelByte(data, planeSize, planes, i))
  }

  /** The values of all `n` pixels of a `bpp`-plane bitmap. Plane bytes are read in
      order, so reading fails exactly when the last plane does not fit in `data`. */
  function Pixels(n: nat, bpp: nat, data: seq<byte>): (r: Result<seq<byte>>)
    requires bpp <= 8 && n % 8 == 0
    ensures r.Ok? <==> (n / 8) * bpp <= |data|
    ensures r.Ok? ==> |r.value| == n
    ensures r.Ok? ==> forall i :: 0 <= i < n ==> r.value[i] < Pow2(bpp)
  {
    if |data| < (n / 8) * bpp then Err(OutOfBounds)
    else Ok(Stage(data, n / 8, bpp, n))
  }

  /** Plane `plane` ORed into the pixels before `k` (in row-major order) and not
      yet into the others. */
  function Partial(data: seq<byte>, planeSize: nat, plane: nat, n: nat, k: nat): (s: seq<byte>)
    requires plane < 8
    ensures |s| == n
  {
    var before := Stage(data, planeSize, plane, n);
    seq(n, i requires 0 <= i < n =>
      if i < k then PixelByte(data, planeSize, plane + 1, i) else before[i])
  }

  lemma PartialEnds(data: seq<byte>, planeSize: nat, plane: nat, n: nat)
    requires plane < 8
    ensures Partial(data, planeSize, plane, n, 0) == Stage(data, planeSize, plane, n)
    ensures Partial(data, planeSize, plane, n, n) == Stage(data, planeSize, plane + 1, n)
  {
  }

  /** Pixel `k` takes the bit of plane `plane` by `|=`; the bits below are those of
      the earlier planes, so the OR adds it. */
  lemma OrPlaneBit(data: seq<byte>, planeSize: nat, plane: nat, k: nat)
    ensures Or(PixelValue(data, planeSize, plane, k), PlaneBit(data, planeSize * plane, k) * Pow2(plane))
      == PixelValue(data, planeSize, plane + 1, k)
  {
    OrDisjoint(PlaneBit(data, planeSize * plane, k), plane, PixelValue(data, planeSize, plane, k));
  }

  lemma PartialStep(data: seq<byte>, planeSize: nat, plane: nat, n: nat, k: nat)
    requires plane < 8 && k < n
    ensures Partial(data, planeSize, plane, n, k)[k] == PixelValue(data, planeSize, plane, k)
    ensures Partial(data, planeSize, plane, n, k + 1)
      == Partial(data, planeSize, plane, n, k)[k := PixelByte(data, planeSize, plane + 1, k)]
  {
  }

  /** `bit << plane` for the bit of pixel `k` in plane `plane`. */
  function PlaneWeight(data: seq<byte>, planeSize: nat, plane: nat, k: nat): nat
  {
    if PlaneBit(data, planeSize * plane, k) == 0 then 0 else Pow2(plane)
  }

  /** One step of the plane loop: ORing pixel `k`'s weighted bit into the partial
      stage moves it on by one pixel. */
  lemma OrStep(data: seq<byte>, planeSize: nat, plane: nat, n: nat, k: nat)
    requires plane < 8 && k < n
    ensures Or(Partial(data, planeSize, plane, n, k)[k], PlaneWeight(data, planeSize, plane, k)) < 256
    ensures Partial(data, planeSize, plane, n, k)[k := Or(Partial(data, planeSize, plane, n, k)[k], PlaneWeight(data, planeSize, plane, k))]
      == Partial(data, planeSize, plane, n, k + 1)
  {
    PartialStep(data, planeSize, plane, n, k);
    OrPlaneBit(data, planeSize, plane, k);
    WeightIsProduct(data, planeSize, plane, k);
  }

  /** One step of a column pass: ORing pixel `p`'s weighted bit into the partial
      stage moves the column on by one row. */
  lemma ColumnOrStep(data: seq<byte>, planeSize: nat, plane: nat, n: nat, width: nat, height: nat,
    x: nat, y: nat, p: nat)
    requires plane < 8 && p < n && x < width && y < height && p == y * width + x
    ensures var s := ColumnPartial(data, planeSize, plane, n, width, x, y);
      && Or(s[p], PlaneWeight(data, planeSize, plane, p)) < 256
      && s[p := Or(s[p], PlaneWeight(data, planeSize, plane, p))]
        == ColumnPartial(data, planeSize, plane, n, width, x, y + 1)
  {
    ColumnStep(data, planeSize, plane, n, width, height, x, y, p);
    OrPlaneBit(data, planeSize, plane, p);
    WeightIsProduct(data, planeSize, plane, p);
  }

  lemma WeightIsProduct(data: seq<byte>, planeSize: nat, plane: nat, k: nat)
    ensures PlaneWeight(data, planeSize, plane, k) == PlaneBit(data, planeSize * plane, k) * Pow2(plane)
  {
    var b := PlaneBit(data, planeSize * plane, k);
    var w := Pow2(plane);
    if b == 0 {
      assert b * w == 0;
    } else {
      assert b * w == w;
    }
  }

  /** The transparency read from a one-bit mask plane: pixel `i` is transparent
      iff its mask bit is 0. Fails when the mask is shorter than a plane. */
  function MaskTransparency(mask: seq<byte>, n: nat): (r: Result<seq<bool>>)
    requires n % 8 == 0
    ensures r.Ok? <==> n / 8 <= |mask|
    ensures r.Ok? ==> |r.value| == n
  {
    if |mask| < n / 8 then Err(OutOfBounds)
    else Ok(seq(n, i requires 0 <= i < n => PlaneBit(mask, 0, i) == 0))
  }

  lemma MulNat(a: nat, b: nat)
    ensures a * b >= 0 && a * b == b * a
  {
  }

  lemma MulMonotone(a: nat, b: nat, c: nat)
    requires a <= b
    ensures a * c <= b * c
  {
  }

  /** Pixel `y * width + x` lies in row `y` and column `x`. */
  lemma FlatIndex(y: nat, x: nat, width: nat)
    requires x < width
    ensures (y * width + x) / width == y && (y * width + x) % width == x
  {
    var q := (y * width + x) / width;
    var r := (y * width + x) % width;
    assert q * width + r == y * width + x;
    assert q * width < (y + 1) * width;
    MulCancelLess(q, y + 1, width);
    assert y * width < (q + 1) * width;
    MulCancelLess(y, q + 1, width);
  }

  lemma MulCancelLess(a: nat, b: nat, c: nat)
    requires a * c < b * c
    ensures a < b
  {
  }

  /** Every pixel of a `width * height` bitmap lies in a row below `height`. */
  lemma RowBound(i: nat, width: nat, height: nat)
    requires i < width * height
    ensures width > 0 && i / width < height
  {
  }

  // Column-major traversal (columns outer, rows inner), as the older revisions loop.

  /** Pixel `i` has been visited once the columns before `x`, and the rows before
      `y` of column `x`, are. */
  predicate ColumnDone(i: nat, width: nat, x: nat, y: nat)
    requires width > 0
  {
    i % width < x || (i % width == x && i / width < y)
  }

  /** Plane `plane` ORed into the visited pixels whose plane byte is present. */
  function ColumnPartial(data: seq<byte>, planeSize: nat, plane: nat, n: nat, width: nat, x: nat, y: nat)
    : (s: seq<byte>)
    requires plane < 8 && width > 0
    ensures |s| == n
  {
    var before := Stage(data, planeSize, plane, n);
    seq(n, i requires 0 <= i < n =>
      if ColumnDone(i, width, x, y) then PixelByte(data, planeSize, plane + 1, i) else before[i])
  }

  lemma ColumnEnds(data: seq<byte>, planeSize: nat, plane: nat, n: nat, width: nat)
    requires plane < 8 && width > 0
    ensures ColumnPartial(data, planeSize, plane, n, width, 0, 0) == Stage(data, planeSize, plane, n)
    ensures ColumnPartial(data, planeSize, plane, n, width, width, 0) == Stage(data, planeSize, plane + 1, n)
  {
  }

  lemma ColumnDoneStep(i: nat, width: nat, height: nat, x: nat, y: nat)
    requires x < width && y < height
    ensures ColumnDone(i, width, x, y + 1) <==> ColumnDone(i, width, x, y) || i == y * width + x
    ensures !ColumnDone(y * width + x, width, x, y)
  {
    FlatIndex(y, x, width);
    if i % width == x && i / width == y {
      assert i == (i / width) * width + i % width;
    }
  }

  lemma ColumnDoneNext(i: nat, width: nat, height: nat, x: nat)
    requires i < width * height
    ensures width > 0 && (ColumnDone(i, width, x, height) <==> ColumnDone(i, width, x + 1, 0))
  {
    RowBound(i, width, height);
  }

  lemma InBounds(y: nat, x: nat, width: nat, height: nat)
    requires x < width && y < height
    ensures y * width + x < width * height
  {
    assert (y + 1) * width == y * width + width;
    assert height * width == width * height;
    MulMonotone(y + 1, height, width);
  }

  /** Visiting pixel `p = y * width + x` updates that pixel alone. */
  lemma ColumnStep(data: seq<byte>, planeSize: nat, plane: nat, n: nat, width: nat, height: nat,
    x: nat, y: nat, p: nat)
    requires plane < 8 && p < n && x < width && y < height && p == y * width + x
    ensures var s := ColumnPartial(data, planeSize, plane, n, width, x, y);
      && s[p] == PixelValue(data, planeSize, plane, p)
      && ColumnPartial(data, planeSize, plane, n, width, x, y + 1)
        == s[p := PixelByte(data, planeSize, plane + 1, p)]
  {
    var s := ColumnPartial(data, planeSize, plane, n, width, x, y);
    var t := ColumnPartial(data, planeSize, plane, n, width, x, y + 1);
    ColumnDoneStep(p, width, height, x, y);
    forall i | 0 <= i < n
      ensures t[i] == s[p := PixelByte(data, planeSize, plane + 1, p)][i]
    {
      ColumnDoneStep(i, width, height, x, y);
    }
  }

  /** A column is finished after its last row. */
  lemma ColumnNext(data: seq<byte>, planeSize: nat, plane: nat, n: nat, width: nat, height: nat, x: nat)
    requires plane < 8 && n == width * height && width > 0
    ensures ColumnPartial(data, planeSize, plane, n, width, x, height)
      == ColumnPartial(data, planeSize, plane, n, width, x + 1, 0)
  {
    forall i | 0 <= i < n
      ensures ColumnDone(i, width, x, height) == ColumnDone(i, width, x + 1, 0)
    {
      ColumnDoneNext(i, width, height, x);
    }
  }
}

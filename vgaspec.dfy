/** The special-background decoder of src/game_data/file/vgaspec.rs. A
    `vgaspecN.dat` file is one compressed section. Its decompressed data holds the
    palette in its first 24 bytes and, from byte 40 on, four run-length coded
    bands. Each band unpacks to a 960x40 image of three bit planes. The bands are
    stacked into a 960x160 image whose pixel values are remapped onto the upper
    half of the palette. */
module Vgaspec {
  import opened Wrappers
  import opened Bytes
  import opened Palette
  import Datfile
  import SpriteDecoder

  /** The unpacked size of one band: 960 * 40 pixels of 3 bits. */
  const SectionSize: nat := 14400
  const BitmapWidth: nat := 960
  const BitmapHeight: nat := 160
  const BandHeight: nat := 40
  /** Pixels per band. */
  const BandPixels: nat := 38400
  const BandCount: nat := 4
  /** Where the first band starts in the decompressed data. */
  const BandsStart: nat := 40
  /** `PALETTE_MAP`: the value of a 3-bit pixel in the final image. */
  const PaletteMap: seq<byte> := [0, 9, 10, 11, 12, 13, 14, 15]
  /** `MAGIC_PALETTE_ENTRY`, the expansion of the 6-bit colour (0x1f, 0x1f, 0). */
  const MagicPaletteEntry: Rgb := Rgb(0x7d, 0x7d, 0)

  lemma MagicPaletteEntryExpands()
    ensures MagicPaletteEntry == ExpandRgb6To8(0x1f, 0x1f, 0)
  {
  }

  datatype Content = Content(palette: seq<Rgb>, bitmap: SpriteDecoder.Bitmap)

  // `read_bitmap_section`: a run-length code close to PackBits

  /** Unpacks the runs from `src[i]` on, appending to `out`, until a 0x80 tag: a
      tag `t <= 0x7f` copies the next `t + 1` bytes, a tag `t >= 0x81` repeats the
      next byte `257 - t` times. The result is everything unpacked and the index
      past the 0x80 tag. Output beyond `capacity` is `BadSection`, a missing
      source byte `OutOfBounds`. */
  function Unpack(src: seq<byte>, i: nat, capacity: nat, out: seq<byte>): (r: Result<(seq<byte>, nat)>)
    decreases |src| - i
  {
    if i >= |src| then Err(OutOfBounds)
    else
      var tag := src[i];
      if tag <= 0x7f then
        var len := tag as nat + 1;
        if |out| + len > capacity then Err(BadSection)
        else if i + 1 + len > |src| then Err(OutOfBounds)
        else Unpack(src, i + 1 + len, capacity, out + src[i + 1..i + 1 + len])
      else if tag == 0x80 then Ok((out, i + 1))
      else if i + 1 >= |src| then Err(OutOfBounds)
      else
        var len := 257 - tag as nat;
        if |out| + len > capacity then Err(BadSection)
        else Unpack(src, i + 2, capacity, out + seq(len, _ => src[i + 1]))
  }

  /** What unpacking appends lies within the capacity and behind what was there;
      the terminating tag lies past the start and within the source. */
  lemma {:induction false} UnpackGrows(src: seq<byte>, i: nat, capacity: nat, out: seq<byte>)
    ensures Unpack(src, i, capacity, out).Ok? ==>
      var (result, next) := Unpack(src, i, capacity, out).value;
      && |out| <= |result| && result[..|out|] == out
      && (|out| <= capacity ==> |result| <= capacity)
      && i < next <= |src|
    decreases |src| - i
  {
    if i < |src| {
      var tag := src[i];
      if tag <= 0x7f {
        var len := tag as nat + 1;
        if |out| + len <= capacity && i + 1 + len <= |src| {
          var out' := out + src[i + 1..i + 1 + len];
          UnpackGrows(src, i + 1 + len, capacity, out');
          if Unpack(src, i, capacity, out).Ok? {
            assert out'[..|out|] == out;
          }
        }
      } else if tag != 0x80 && i + 1 < |src| {
        var len := 257 - tag as nat;
        if |out| + len <= capacity {
          var out' := out + seq(len, _ => src[i + 1]);
          UnpackGrows(src, i + 2, capacity, out');
          if Unpack(src, i, capacity, out).Ok? {
            assert out'[..|out|] == out;
          }
        }
      }
    }
  }

  /** The outcome of `read_bitmap_section`: the unpacked band and the index past
      its 0x80 tag, when it has exactly 14400 bytes. */
  function SectionOf(src: seq<byte>, index: nat, capacity: nat): (r: Result<(seq<byte>, nat)>)
    ensures r.Ok? ==> |r.value.0| == SectionSize <= capacity
  {
    UnpackGrows(src, index, capacity, []);
    var unpacked :- Unpack(src, index, capacity, []);
    if |unpacked.0| == SectionSize then Ok(unpacked) else Err(BadSection)
  }

  /** `read_bitmap_section`: unpacks into `dest` from index 0 on and returns the
      source index past the 0x80 tag. Only the unpacked prefix of `dest` changes. */
  method ReadBitmapSection(src: seq<byte>, index: nat, dest: array<byte>) returns (r: Result<nat>)
    modifies dest
    ensures var s := SectionOf(src, index, dest.Length);
      && (r.Ok? <==> s.Ok?)
      && (r.Ok? ==> r.value == s.value.1 && dest[..SectionSize] == s.value.0)
      && (r.Err? ==> r.error == s.error)
    ensures Unpack(src, index, dest.Length, []).Ok? ==>
      var n := |Unpack(src, index, dest.Length, []).value.0|;
      n <= dest.Length && dest[n..] == old(dest[..])[n..]
  {
    var iSource := index;
    var iDest := 0;
    ghost var out: seq<byte> := [];
    ghost var initial := dest[..];
    while true
      invariant iDest == |out| <= dest.Length
      invariant dest[..iDest] == out
      invariant dest[iDest..] == initial[iDest..]
      invariant Unpack(src, index, dest.Length, []) == Unpack(src, iSource, dest.Length, out)
      decreases |src| - iSource
    {
      if iSource >= |src| {
        return Err(OutOfBounds);
      }
      var tag := src[iSource];
      iSource := iSource + 1;
      if tag <= 0x7f {
        var len := tag as nat + 1;
        if iDest + len > dest.Length {
          return Err(BadSection);
        }
        if iSource + len > |src| {
          return Err(OutOfBounds);
        }
        forall k | iDest <= k < iDest + len {
          dest[k] := src[iSource + (k - iDest)];
        }
        out := out + src[iSource..iSource + len];
        iSource := iSource + len;
        iDest := iDest + len;
      } else if tag == 0x80 {
        break;
      } else {
        if iSource >= |src| {
          return Err(OutOfBounds);
        }
        var fill := src[iSource];
        var len := 257 - tag as nat;
        iSource := iSource + 1;
        if iDest + len > dest.Length {
          return Err(BadSection);
        }
        forall k | iDest <= k < iDest + len {
          dest[k] := fill;
        }
        out := out + seq(len, _ => fill);
        iDest := iDest + len;
      }
    }
    if iDest == SectionSize {
      return Ok(iSource);
    }
    return Err(BadSection);
  }

  /** A packer for the same code: literal runs of at most 128 bytes, then 0x80. */
  function Pack(data: seq<byte>): (r: seq<byte>)
    ensures |r| > 0
    decreases |data|
  {
    if |data| == 0 then [0x80]
    else
      var n := if |data| < 128 then |data| else 128;
      [(n - 1) as byte] + data[..n] + Pack(data[n..])
  }

  /** Unpacking a packed block anywhere in a source gives back the data and stops
      right after the block. */
  lemma {:induction false} UnpackPack(data: seq<byte>, src: seq<byte>, i: nat, capacity: nat, out: seq<byte>)
    requires i + |Pack(data)| <= |src| && src[i..i + |Pack(data)|] == Pack(data)
    requires |out| + |data| <= capacity
    ensures Unpack(src, i, capacity, out) == Ok((out + data, i + |Pack(data)|))
    decreases |data|
  {
    var packed := Pack(data);
    if |data| == 0 {
      assert src[i] == packed[0] == 0x80;
      assert out + data == out;
    } else {
      var n := if |data| < 128 then |data| else 128;
      PackRun(data, src, i, n);
      UnpackLiteralRun(src, i, capacity, out, n);
      UnpackPack(data[n..], src, i + 1 + n, capacity, out + data[..n]);
      assert out + data[..n] + data[n..] == out + data;
    }
  }

  /** Where a packed block lies in a source: its first run, then the block
      packing the rest. */
  lemma PackRun(data: seq<byte>, src: seq<byte>, i: nat, n: nat)
    requires i + |Pack(data)| <= |src| && src[i..i + |Pack(data)|] == Pack(data)
    requires |data| > 0 && n == if |data| < 128 then |data| else 128
    ensures i + 1 + n + |Pack(data[n..])| == i + |Pack(data)|
    ensures src[i] == n - 1 && src[i + 1..i + 1 + n] == data[..n]
    ensures src[i + 1 + n..i + 1 + n + |Pack(data[n..])|] == Pack(data[n..])
  {
    var packed := Pack(data);
    var rest := Pack(data[n..]);
    assert packed == [(n - 1) as byte] + data[..n] + rest;
    var block := src[i..i + |packed|];
    assert src[i] == block[0] == (n - 1) as byte;
    assert packed[1..1 + n] == data[..n];
    assert src[i + 1..i + 1 + n] == block[1..1 + n];
    assert packed[1 + n..] == rest;
    assert src[i + 1 + n..i + 1 + n + |rest|] == block[1 + n..];
  }

  /** A literal run of `n` bytes: they are appended and unpacking goes on after
      them. */
  lemma UnpackLiteralRun(src: seq<byte>, i: nat, capacity: nat, out: seq<byte>, n: nat)
    requires i + 1 + n <= |src| && 0 < n <= 128 && src[i] == n - 1 && |out| + n <= capacity
    ensures Unpack(src, i, capacity, out) == Unpack(src, i + 1 + n, capacity, out + src[i + 1..i + 1 + n])
  {
  }

  /** Packing a band of 14400 bytes round-trips through `read_bitmap_section`. */
  lemma SectionPack(data: seq<byte>)
    requires |data| == SectionSize
    ensures SectionOf(Pack(data), 0, SectionSize) == Ok((data, |Pack(data)|))
  {
    assert Pack(data)[0..|Pack(data)|] == Pack(data);
    UnpackPack(data, Pack(data), 0, SectionSize, []);
    assert [] + data == data;
  }

  // `read_compressed_data`

  /** Colour `8 + i` (1..7): the 6-bit colour at byte `3 * i`. */
  function StoredColour(data: seq<byte>, i: nat): Rgb
    requires 3 * i + 3 <= |data|
  {
    ExpandRgb6To8(data[3 * i], data[3 * i + 1], data[3 * i + 2])
  }

  /** The palette of a special background: the fixed colours, the magic colour
      as colours 7 and 8, and colours 9..15 from bytes 3..23. The colour stored at
      bytes 0..2 is read and then overwritten. */
  function PaletteOf(data: seq<byte>): (r: Result<seq<Rgb>>)
    ensures r.Ok? <==> 24 <= |data|
    ensures r.Err? ==> r.error == OutOfBounds
    ensures r.Ok? ==> |r.value| == PaletteSize && r.value[..7] == LowerPaletteFixed
    ensures r.Ok? ==> r.value[7] == r.value[8] == MagicPaletteEntry
    ensures r.Ok? ==> forall i :: 1 <= i < 8 ==> r.value[8 + i] == StoredColour(data, i)
  {
    if |data| < 24 then Err(OutOfBounds)
    else Ok(LowerPaletteFixed + [MagicPaletteEntry, MagicPaletteEntry]
      + seq(7, k requires 0 <= k < 7 => StoredColour(data, k + 1)))
  }

  /** The palette loop of `read_compressed_data`: colours 8..15 read from the
      data, colours 0..6 fixed, then the magic colour written over colour 8 and
      copied to colour 7. */
  method BuildPalette(data: seq<byte>) returns (r: Result<seq<Rgb>>)
    ensures r == PaletteOf(data)
  {
    var palette := new Rgb[PaletteSize](_ => Rgb(0, 0, 0));
    for i := 0 to 8
      invariant 3 * i <= |data|
      invariant forall k :: 0 <= k < i && k != 7 ==> palette[k] == LowerPaletteFixed[k]
      invariant forall k :: 0 <= k < i ==> palette[8 + k] == StoredColour(data, k)
    {
      var entry := ReadPaletteEntry(data, 3 * i);
      if entry.Err? {
        return Err(entry.error);
      }
      var colour := entry.value.0;
      assert colour == StoredColour(data, i);
      palette[8 + i] := colour;
      if i != 7 {
        palette[i] := LowerPaletteFixed[i];
      }
    }
    palette[8] := MagicPaletteEntry;
    palette[7] := palette[8];
    r := Ok(palette[..]);
    assert palette[..] == PaletteOf(data).value;
  }

  /** The first `n` bands from `start` on, each unpacked into the 14400-byte
      buffer, and the source index past the last. */
  function BandsOf(data: seq<byte>, start: nat, n: nat): (r: Result<(seq<seq<byte>>, nat)>)
    ensures r.Ok? ==> |r.value.0| == n && forall k :: 0 <= k < n ==> |r.value.0[k]| == SectionSize
    decreases n
  {
    if n == 0 then Ok(([], start))
    else
      var previous :- BandsOf(data, start, n - 1);
      var section :- SectionOf(data, previous.1, SectionSize);
      Ok((previous.0 + [section.0], section.1))
  }

  /** Once a band fails, so do all longer runs of bands, with the same error. */
  lemma {:induction false} BandsStop(data: seq<byte>, start: nat, k: nat, n: nat)
    requires k <= n && BandsOf(data, start, k).Err?
    ensures BandsOf(data, start, n) == Err(BandsOf(data, start, k).error)
    decreases n
  {
    if n > k {
      BandsStop(data, start, k, n - 1);
    }
  }

  /** A band decoded as a 960x40 bitmap of three planes with black transparency:
      its 14400 bytes are exactly three planes, so decoding cannot fail. */
  function BandBitmap(band: seq<byte>): (b: SpriteDecoder.Bitmap)
    requires |band| == SectionSize
    ensures SpriteDecoder.BitmapOf(BitmapWidth, BandHeight, 3, band, SpriteDecoder.Black) == Ok(b)
    ensures |b.data| == BandPixels && |b.transparency| == BandPixels
    ensures forall j :: 0 <= j < BandPixels ==> b.data[j] < 8
    ensures forall j :: 0 <= j < BandPixels ==> (b.transparency[j] <==> b.data[j] == 0)
  {
    assert Pow2(3) == 8;
    SpriteDecoder.BitmapOf(BitmapWidth, BandHeight, 3, band, SpriteDecoder.Black).value
  }

  /** The parts laid end to end. */
  function Flatten<T>(parts: seq<seq<T>>): (r: seq<T>)
    decreases |parts|
  {
    if |parts| == 0 then [] else Flatten(parts[..|parts| - 1]) + parts[|parts| - 1]
  }

  /** With parts of equal length `m`, element `j` of part `k` is element
      `m * k + j` of the whole. */
  lemma {:induction false} FlattenIndex<T>(parts: seq<seq<T>>, m: nat, k: nat, j: nat)
    requires forall p :: 0 <= p < |parts| ==> |parts[p]| == m
    requires k < |parts| && j < m
    ensures |Flatten(parts)| == m * |parts|
    ensures m * k + j < |Flatten(parts)| && Flatten(parts)[m * k + j] == parts[k][j]
    decreases |parts|
  {
    var last := |parts| - 1;
    FlattenLength(parts[..last], m);
    if k < last {
      FlattenIndex(parts[..last], m, k, j);
    }
  }

  lemma {:induction false} FlattenLength<T>(parts: seq<seq<T>>, m: nat)
    requires forall p :: 0 <= p < |parts| ==> |parts[p]| == m
    ensures |Flatten(parts)| == m * |parts|
    decreases |parts|
  {
    if |parts| > 0 {
      FlattenLength(parts[..|parts| - 1], m);
    }
  }

  /** Every pixel value through `PALETTE_MAP`. */
  function Remapped(pixels: seq<byte>): (r: seq<byte>)
    requires forall j :: 0 <= j < |pixels| ==> pixels[j] < 8
    ensures |r| == |pixels|
  {
    seq(|pixels|, j requires 0 <= j < |pixels| => PaletteMap[pixels[j]])
  }

  /** The 960x160 image of four bands: band `k` is rows `40k .. 40k + 39`, and
      every pixel is remapped. */
  function ImageOf(bands: seq<seq<byte>>): (b: SpriteDecoder.Bitmap)
    requires |bands| == BandCount && forall k :: 0 <= k < BandCount ==> |bands[k]| == SectionSize
  {
    var bitmaps := seq(BandCount, k requires 0 <= k < BandCount => BandBitmap(bands[k]));
    var data := seq(BandCount, k requires 0 <= k < BandCount => bitmaps[k].data);
    var transparency := seq(BandCount, k requires 0 <= k < BandCount => bitmaps[k].transparency);
    FlattenBelow(data);
    SpriteDecoder.Bitmap(BitmapWidth, BitmapHeight, Remapped(Flatten(data)), Flatten(transparency))
  }

  lemma {:induction false} FlattenBelow(parts: seq<seq<byte>>)
    requires forall p, j :: 0 <= p < |parts| && 0 <= j < |parts[p]| ==> parts[p][j] < 8
    ensures forall j :: 0 <= j < |Flatten(parts)| ==> Flatten(parts)[j] < 8
    decreases |parts|
  {
    if |parts| > 0 {
      FlattenBelow(parts[..|parts| - 1]);
    }
  }

  /** The decompressed data of a special background: palette, then four bands. */
  function ContentOf(data: seq<byte>): (r: Result<Content>)
  {
    var palette :- PaletteOf(data);
    var bands :- BandsOf(data, BandsStart, BandCount);
    Ok(Content(palette, ImageOf(bands.0)))
  }

  /** `read_compressed_data` on the file's bytes: exactly one section. */
  function VgaspecOf(compressed: seq<byte>): (r: Result<Content>)
  {
    var sections :- Datfile.ParseFrom(compressed, 0);
    if |sections| != 1 then Err(TooManySections) else ContentOf(sections[0].data)
  }

  /** Band `k`'s pixel `j` is pixel `38400 * k + j` of the image, remapped, with
      its transparency. */
  lemma ImageLayout(bands: seq<seq<byte>>, k: nat, j: nat)
    requires |bands| == BandCount && forall p :: 0 <= p < BandCount ==> |bands[p]| == SectionSize
    requires k < BandCount && j < BandPixels
    ensures var image := ImageOf(bands);
      && |image.data| == |image.transparency| == BitmapWidth * BitmapHeight
      && image.data[BandPixels * k + j] == PaletteMap[BandBitmap(bands[k]).data[j]]
      && image.transparency[BandPixels * k + j] == BandBitmap(bands[k]).transparency[j]
  {
    var bitmaps := seq(BandCount, p requires 0 <= p < BandCount => BandBitmap(bands[p]));
    var data := seq(BandCount, p requires 0 <= p < BandCount => bitmaps[p].data);
    var transparency := seq(BandCount, p requires 0 <= p < BandCount => bitmaps[p].transparency);
    FlattenIndex(data, BandPixels, k, j);
    FlattenIndex(transparency, BandPixels, k, j);
  }

  /** Every pixel of a decoded special background is 0 or one of the colours
      9..15, and it is transparent exactly when it is 0. */
  lemma ContentPixels(data: seq<byte>)
    requires ContentOf(data).Ok?
    ensures var b := ContentOf(data).value.bitmap;
      && b.width == BitmapWidth && b.height == BitmapHeight
      && |b.data| == |b.transparency| == BitmapWidth * BitmapHeight
      && forall i :: 0 <= i < |b.data| ==>
        && (b.data[i] == 0 || 9 <= b.data[i] <= 15)
        && (b.transparency[i] <==> b.data[i] == 0)
  {
    var bands := BandsOf(data, BandsStart, BandCount).value.0;
    var b := ContentOf(data).value.bitmap;
    ImageLayout(bands, 0, 0);
    forall i | 0 <= i < |b.data|
      ensures b.data[i] == 0 || 9 <= b.data[i] <= 15
      ensures b.transparency[i] <==> b.data[i] == 0
    {
      ImagePixel(bands, i);
    }
  }

  /** One pixel of the image: 0 or one of 9..15, transparent exactly when 0. */
  lemma ImagePixel(bands: seq<seq<byte>>, i: nat)
    requires |bands| == BandCount && forall p :: 0 <= p < BandCount ==> |bands[p]| == SectionSize
    requires i < BitmapWidth * BitmapHeight
    ensures var image := ImageOf(bands);
      && i < |image.data| == |image.transparency|
      && (image.data[i] == 0 || 9 <= image.data[i] <= 15)
      && (image.transparency[i] <==> image.data[i] == 0)
  {
    var k := i / BandPixels;
    var j := i % BandPixels;
    assert BandPixels * k + j == i;
    ImageLayout(bands, k, j);
    var band := BandBitmap(bands[k]);
    RemappedColour(band.data[j]);
  }

  /** The remapping sends 0 to 0 and 1..7 to 9..15. */
  lemma RemappedColour(x: nat)
    requires x < 8
    ensures PaletteMap[x] == 0 || 9 <= PaletteMap[x] <= 15
    ensures PaletteMap[x] == 0 <==> x == 0
  {
  }

  /** Lays the parts end to end in a new array, part `i` at `38400 * i`. */
  method Stitch<T>(parts: seq<seq<T>>, init: T) returns (whole: array<T>)
    requires |parts| == BandCount && forall k :: 0 <= k < BandCount ==> |parts[k]| == BandPixels
    ensures fresh(whole) && whole[..] == Flatten(parts)
  {
    whole := new T[BandCount * BandPixels](_ => init);
    for i := 0 to BandCount
      invariant whole[..BandPixels * i] == Flatten(parts[..i])
    {
      var part := parts[i];
      forall k | 0 <= k < BandPixels {
        whole[BandPixels * i + k] := part[k];
      }
      assert parts[..i + 1][..i] == parts[..i];
      assert whole[BandPixels * i..BandPixels * (i + 1)] == part;
      assert whole[..BandPixels * (i + 1)] == whole[..BandPixels * i] + whole[BandPixels * i..BandPixels * (i + 1)];
    }
    assert parts[..BandCount] == parts;
    assert whole[..] == whole[..BandPixels * BandCount];
  }

  /** The remapping loop: every pixel, row by row, through `PALETTE_MAP`. */
  method Remap(bitmap: array<byte>)
    requires bitmap.Length == BitmapWidth * BitmapHeight
    requires forall j :: 0 <= j < bitmap.Length ==> bitmap[j] < 8
    modifies bitmap
    ensures bitmap[..] == Remapped(old(bitmap[..]))
  {
    ghost var before := bitmap[..];
    var i := 0;
    for y := 0 to BitmapHeight
      invariant i == BitmapWidth * y
      invariant forall j :: 0 <= j < i ==> bitmap[j] == PaletteMap[before[j]]
      invariant forall j :: i <= j < bitmap.Length ==> bitmap[j] == before[j]
    {
      for x := 0 to BitmapWidth
        invariant i == BitmapWidth * y + x
        invariant forall j :: 0 <= j < i ==> bitmap[j] == PaletteMap[before[j]]
        invariant forall j :: i <= j < bitmap.Length ==> bitmap[j] == before[j]
      {
        bitmap[i] := PaletteMap[bitmap[i]];
        i := i + 1;
      }
    }
    assert bitmap[..] == Remapped(before);
  }

  /** The band loop of `read_compressed_data`: four sections unpacked one after
      the other into one 14400-byte buffer, each decoded as it is unpacked. */
  method ReadBands(data: seq<byte>) returns (r: Result<seq<SpriteDecoder.Bitmap>>)
    ensures var b := BandsOf(data, BandsStart, BandCount);
      && (r.Ok? <==> b.Ok?)
      && (r.Err? ==> r.error == b.error)
      && (r.Ok? ==> |r.value| == BandCount && forall k :: 0 <= k < BandCount ==> r.value[k] == BandBitmap(b.value.0[k]))
  {
    var iSource := BandsStart;
    var bitmapData := new byte[SectionSize](_ => 0);
    var sectionBitmaps: seq<SpriteDecoder.Bitmap> := [];
    ghost var bands: seq<seq<byte>> := [];
    for i := 0 to BandCount
      invariant BandsOf(data, BandsStart, i) == Ok((bands, iSource))
      invariant |sectionBitmaps| == i
      invariant forall k :: 0 <= k < i ==> sectionBitmaps[k] == BandBitmap(bands[k])
    {
      var next := ReadBitmapSection(data, iSource, bitmapData);
      if next.Err? {
        BandsStop(data, BandsStart, i + 1, BandCount);
        return Err(next.error);
      }
      var band := bitmapData[..];
      assert band == bitmapData[..SectionSize];
      var bitmap := SpriteDecoder.ReadBitmapPlanar(BitmapWidth, BandHeight, 3, band, SpriteDecoder.Black);
      assert bitmap == Ok(BandBitmap(band));
      sectionBitmaps := sectionBitmaps + [bitmap.value];
      bands := bands + [band];
      iSource := next.value;
    }
    return Ok(sectionBitmaps);
  }

  /** The stitching and remapping of `read_compressed_data`: the decoded bands
      laid end to end, then every pixel remapped. */
  method Assemble(ghost bands: seq<seq<byte>>, bitmaps: seq<SpriteDecoder.Bitmap>) returns (b: SpriteDecoder.Bitmap)
    requires |bands| == BandCount && forall k :: 0 <= k < BandCount ==> |bands[k]| == SectionSize
    requires |bitmaps| == BandCount && forall k :: 0 <= k < BandCount ==> bitmaps[k] == BandBitmap(bands[k])
    ensures b == ImageOf(bands)
  {
    var data := seq(BandCount, k requires 0 <= k < BandCount => bitmaps[k].data);
    var pixels := Stitch(data, 0);
    var masks := seq(BandCount, k requires 0 <= k < BandCount => bitmaps[k].transparency);
    var transparency := Stitch(masks, false);
    FlattenLength(data, BandPixels);
    FlattenBelow(data);
    Remap(pixels);
    ghost var decoded := seq(BandCount, k requires 0 <= k < BandCount => BandBitmap(bands[k]));
    assert data == seq(BandCount, k requires 0 <= k < BandCount => decoded[k].data);
    assert masks == seq(BandCount, k requires 0 <= k < BandCount => decoded[k].transparency);
    b := SpriteDecoder.Bitmap(BitmapWidth, BitmapHeight, pixels[..], transparency[..]);
  }

  /** `read_compressed_data`: the single section's palette, its four bands and
      the image they make. */
  method ReadCompressedData(compressed: seq<byte>) returns (r: Result<Content>)
    ensures r == VgaspecOf(compressed)
  {
    var sections := Datfile.Parse(compressed);
    if sections.Err? {
      return Err(sections.error);
    }
    if |sections.value| != 1 {
      return Err(TooManySections);
    }
    var data := sections.value[0].data;
    var palette := BuildPalette(data);
    if palette.Err? {
      return Err(palette.error);
    }
    var bitmaps := ReadBands(data);
    if bitmaps.Err? {
      return Err(bitmaps.error);
    }
    var bitmap := Assemble(BandsOf(data, BandsStart, BandCount).value.0, bitmaps.value);
    r := Ok(Content(palette.value, bitmap));
  }
}

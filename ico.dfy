/**
 * The icon file writer of IconGenerator.cs: SaveAsIco lays out a Windows ICO
 * file as a 6-byte ICONDIR header, one 16-byte ICONDIRENTRY per image, and
 * then the PNG encoding of every image in directory order, all in the
 * little-endian form .NET's BinaryWriter uses. The PNG encodings are taken as
 * given byte sequences.
 */
module Ico {
  import opened Basics

  /**
   * The two bytes BinaryWriter writes for a `short`, low byte first. A value
   * cast to `short` keeps its low 16 bits, which are exactly what is written.
   */
  function LE16(x: int): (r: seq<byte>)
    ensures |r| == 2
  {
    [(x % 256) as byte, ((x / 256) % 256) as byte]
  }

  /** The four bytes BinaryWriter writes for an `int`, low byte first: the low 32 bits of `x`. */
  function LE32(x: int): (r: seq<byte>)
    ensures |r| == 4
  {
    LE16(x) + LE16(x / 65536)
  }

  /** The value of two little-endian bytes, as BinaryReader.ReadUInt16 reads them. */
  function Decode16(s: seq<byte>): (v: int)
    requires |s| == 2
    ensures 0 <= v < 65536
  {
    s[0] as int + 256 * s[1] as int
  }

  /** The value of four little-endian bytes, as BinaryReader.ReadUInt32 reads them. */
  function Decode32(s: seq<byte>): (v: int)
    requires |s| == 4
    ensures 0 <= v < 0x1_0000_0000
  {
    Decode16(s[..2]) + 65536 * Decode16(s[2..])
  }

  /** Reading back a written `short` gives its low 16 bits. */
  lemma LE16RoundTrip(x: int)
    ensures Decode16(LE16(x)) == x % 65536
  {
    var q := x / 256;
    assert x == 65536 * (q / 256) + 256 * (q % 256) + x % 256;
  }

  /** Reading back a written `int` gives its low 32 bits; a value in range comes back unchanged. */
  lemma LE32RoundTrip(x: int)
    ensures Decode32(LE32(x)) == x % 0x1_0000_0000
    ensures 0 <= x < 0x1_0000_0000 ==> Decode32(LE32(x)) == x
  {
    var s := LE32(x);
    assert s[..2] == LE16(x) && s[2..] == LE16(x / 65536);
    LE16RoundTrip(x);
    LE16RoundTrip(x / 65536);
    var q := x / 65536;
    assert x == 0x1_0000_0000 * (q / 65536) + 65536 * (q % 65536) + x % 65536;
  }

  /** A bitmap: its size in pixels and its PNG encoding (what `img.Save(ms, Png)` leaves in the stream). */
  datatype Image = Image(width: int, height: int, png: seq<byte>)

  /** The width or height byte of a directory entry: 0 stands for 256 or more. */
  function DimensionByte(d: int): (b: byte)
    ensures 0 <= d < 256 ==> b as int == d
    ensures d >= 256 ==> b == 0
  {
    ((if d >= 256 then 0 else d) % 256) as byte
  }

  /** ICONDIR: reserved 0, type 1 (icon), and the image count, each a `short`. */
  function Header(count: int): (r: seq<byte>)
    ensures |r| == 6
    // reserved 0 and type 1, then the count cut to 16 bits
    ensures Decode16(r[0..2]) == 0 && Decode16(r[2..4]) == 1 && Decode16(r[4..6]) == count % 65536
  {
    LE16RoundTrip(0);
    LE16RoundTrip(1);
    LE16RoundTrip(count);
    LE16(0) + LE16(1) + LE16(count)
  }

  /**
   * ICONDIRENTRY for an image whose data starts at `offset`: width and height
   * bytes, palette 0, reserved 0, 1 colour plane, 32 bits per pixel, the data
   * length and the offset.
   */
  function Entry(img: Image, offset: int): (r: seq<byte>)
    ensures |r| == 16
    // the dimension bytes, no palette, reserved 0, one plane and 32 bits per pixel
    ensures r[..8] == [DimensionByte(img.width), DimensionByte(img.height), 0, 0, 1, 0, 32, 0]
  {
    [DimensionByte(img.width), DimensionByte(img.height), 0, 0] + LE16(1) + LE16(32) + LE32(|img.png|) + LE32(offset)
  }

  /** The total length of the images' PNG data. */
  function DataLength(imgs: seq<Image>): nat
    decreases |imgs|
  {
    if imgs == [] then 0 else DataLength(imgs[..|imgs| - 1]) + |imgs[|imgs| - 1].png|
  }

  /**
   * The directory for images whose data starts at `first`: each entry records
   * the offset that follows all the data before it.
   */
  function Directory(imgs: seq<Image>, first: int): (r: seq<byte>)
    ensures |r| == 16 * |imgs|
    decreases |imgs|
  {
    if imgs == [] then []
    else
      var init := imgs[..|imgs| - 1];
      Directory(init, first) + Entry(imgs[|imgs| - 1], first + DataLength(init))
  }

  /** The images' PNG data, one after the other. */
  function Blobs(imgs: seq<Image>): (r: seq<byte>)
    ensures |r| == DataLength(imgs)
    decreases |imgs|
  {
    if imgs == [] then [] else Blobs(imgs[..|imgs| - 1]) + imgs[|imgs| - 1].png
  }

  /** Where the data of every image starts: after the header and the whole directory. */
  function FirstOffset(imgs: seq<Image>): int
  {
    6 + 16 * |imgs|
  }

  /** The offset SaveAsIco records for image `i`. */
  function ImageOffset(imgs: seq<Image>, i: int): int
    requires 0 <= i <= |imgs|
  {
    FirstOffset(imgs) + DataLength(imgs[..i])
  }

  /** The bytes SaveAsIco writes for `imgs`. */
  function IcoFile(imgs: seq<Image>): (r: seq<byte>)
    // the header, then the directory, then the data
    ensures |r| == FirstOffset(imgs) + DataLength(imgs)
    ensures r[..6] == Header(|imgs|)
  {
    Header(|imgs|) + Directory(imgs, FirstOffset(imgs)) + Blobs(imgs)
  }

  /**
   * SaveAsIco with the file stream as a byte sequence: the header, then the
   * PNG encoding of every image collected, then the directory entries with a
   * running offset, then the data.
   */
  method SaveAsIco(images: seq<Image>) returns (file: seq<byte>)
    ensures file == IcoFile(images)
  {
    file := [];
    file := file + LE16(0);
    file := file + LE16(1);
    file := file + LE16(|images|);

    var imageData: seq<seq<byte>> := [];
    var k := 0;
    while k < |images|
      invariant 0 <= k <= |images| && |imageData| == k
      invariant forall j | 0 <= j < k :: imageData[j] == images[j].png
    {
      imageData := imageData + [images[k].png];
      k := k + 1;
    }

    var directory := WriteDirectory(images, imageData);
    file := file + directory;

    var j := 0;
    while j < |imageData|
      invariant 0 <= j <= |images|
      invariant file == Header(|images|) + Directory(images, FirstOffset(images)) + Blobs(images[..j])
    {
      assert images[..j + 1][..j] == images[..j];
      file := file + imageData[j];
      j := j + 1;
    }
    assert images[..j] == images;
  }

  /**
   * The entry loop of SaveAsIco: the directory entries, each recording the
   * running offset, which starts after the header and the directory and
   * advances by every image's data length.
   */
  method WriteDirectory(images: seq<Image>, imageData: seq<seq<byte>>) returns (directory: seq<byte>)
    requires |imageData| == |images|
    requires forall j | 0 <= j < |images| :: imageData[j] == images[j].png
    ensures directory == Directory(images, FirstOffset(images))
  {
    directory := [];
    var offset := 6 + 16 * |images|;
    var i := 0;
    while i < |images|
      invariant 0 <= i <= |images|
      invariant offset == ImageOffset(images, i)
      invariant directory == Directory(images[..i], FirstOffset(images))
    {
      var img := images[i];
      var data := imageData[i];
      var entry := [DimensionByte(img.width), DimensionByte(img.height), 0, 0];
      entry := entry + LE16(1) + LE16(32);
      entry := entry + LE32(|data|) + LE32(offset);
      assert entry == Entry(img, offset);
      assert images[..i + 1][..i] == images[..i];
      directory := directory + entry;
      offset := offset + |data|;
      i := i + 1;
    }
    assert images[..i] == images;
  }

  /** Entry `i` of a directory sits at byte `16 * i` and records the data before image `i`. */
  lemma {:induction false} EntryAt(imgs: seq<Image>, first: int, i: int)
    requires 0 <= i < |imgs|
    ensures Directory(imgs, first)[16 * i .. 16 * i + 16] == Entry(imgs[i], first + DataLength(imgs[..i]))
    decreases |imgs|
  {
    var init := imgs[..|imgs| - 1];
    if i < |imgs| - 1 {
      EntryAt(init, first, i);
      assert init[..i] == imgs[..i];
    } else {
      assert imgs[..i] == init;
    }
  }

  /** The data of the first `j` images is the start of the data of all of them. */
  lemma {:induction false} BlobsPrefix(imgs: seq<Image>, j: int)
    requires 0 <= j <= |imgs|
    ensures DataLength(imgs[..j]) <= DataLength(imgs)
    ensures Blobs(imgs)[..DataLength(imgs[..j])] == Blobs(imgs[..j])
    decreases |imgs|
  {
    if j == |imgs| {
      assert imgs[..j] == imgs;
    } else {
      var init := imgs[..|imgs| - 1];
      BlobsPrefix(init, j);
      assert init[..j] == imgs[..j];
    }
  }

  /** The data of image `i` sits right after the data of the images before it. */
  lemma BlobAt(imgs: seq<Image>, i: int)
    requires 0 <= i < |imgs|
    ensures DataLength(imgs[..i]) + |imgs[i].png| <= DataLength(imgs)
    ensures Blobs(imgs)[DataLength(imgs[..i]) .. DataLength(imgs[..i]) + |imgs[i].png|] == imgs[i].png
  {
    assert imgs[..i + 1][..i] == imgs[..i];
    BlobsPrefix(imgs, i + 1);
    var prefix := Blobs(imgs[..i + 1]);
    assert prefix == Blobs(imgs[..i]) + imgs[i].png;
    assert prefix[|Blobs(imgs[..i])|..] == imgs[i].png;
  }

  /** A slice of `a + b` that lies inside `b`. */
  lemma SliceOfSuffix(a: seq<byte>, b: seq<byte>, lo: int, hi: int)
    requires |a| <= lo <= hi <= |a| + |b|
    ensures (a + b)[lo..hi] == b[lo - |a| .. hi - |a|]
  {
  }

  /** A slice of `a + b + c` that lies inside `b`. */
  lemma SliceInMiddle(a: seq<byte>, b: seq<byte>, c: seq<byte>, lo: int, hi: int)
    requires |a| <= lo <= hi <= |a| + |b|
    ensures (a + b + c)[lo..hi] == b[lo - |a| .. hi - |a|]
  {
  }

  /** The file is `6 + 16 n` bytes of header and directory followed by the data. */
  lemma IcoLength(imgs: seq<Image>)
    ensures |IcoFile(imgs)| == FirstOffset(imgs) + DataLength(imgs)
  {
  }

  /** Entry `i` sits at byte `6 + 16 i` and records the offset of image `i`'s data. */
  lemma IcoEntryAt(imgs: seq<Image>, i: int)
    requires 0 <= i < |imgs|
    ensures IcoFile(imgs)[6 + 16 * i .. 6 + 16 * i + 16] == Entry(imgs[i], ImageOffset(imgs, i))
  {
    var dir := Directory(imgs, FirstOffset(imgs));
    EntryAt(imgs, FirstOffset(imgs), i);
    SliceInMiddle(Header(|imgs|), dir, Blobs(imgs), 6 + 16 * i, 6 + 16 * i + 16);
  }

  /** The data of image `i` sits at exactly the offset its entry records. */
  lemma IcoBlobAt(imgs: seq<Image>, i: int)
    requires 0 <= i < |imgs|
    ensures ImageOffset(imgs, i) + |imgs[i].png| <= |IcoFile(imgs)|
    ensures IcoFile(imgs)[ImageOffset(imgs, i) .. ImageOffset(imgs, i) + |imgs[i].png|] == imgs[i].png
  {
    var head := Header(|imgs|) + Directory(imgs, FirstOffset(imgs));
    BlobAt(imgs, i);
    var start := DataLength(imgs[..i]);
    assert IcoFile(imgs) == head + Blobs(imgs);
    SliceOfSuffix(head, Blobs(imgs), |head| + start, |head| + start + |imgs[i].png|);
  }

  /**
   * How an icon reader finds image `i`: the count from the header, then the
   * data length and offset from entry `i`; None when the file is too short
   * for what it claims.
   */
  function ReadImage(file: seq<byte>, i: int): Option<seq<byte>>
  {
    if |file| < 6 || i < 0 || i >= Decode16(file[4..6]) || |file| < 6 + 16 * i + 16 then None
    else
      var entry := file[6 + 16 * i .. 6 + 16 * i + 16];
      var size := Decode32(entry[8..12]);
      var offset := Decode32(entry[12..16]);
      if offset + size <= |file| then Some(file[offset .. offset + size]) else None
  }

  /**
   * Round trip: a reader gets back every image's PNG data from the file
   * SaveAsIco writes, as long as the count fits a `short` and the file is
   * smaller than 4 GiB (so no recorded offset or length wraps around).
   */
  lemma ReadBack(imgs: seq<Image>, i: int)
    requires 0 <= i < |imgs| < 65536
    requires |IcoFile(imgs)| < 0x1_0000_0000
    ensures ReadImage(IcoFile(imgs), i) == Some(imgs[i].png)
  {
    var file := IcoFile(imgs);
    var offset := ImageOffset(imgs, i);
    IcoCount(imgs);
    IcoBlobAt(imgs, i);
    IcoEntryAt(imgs, i);
    EntryFields(imgs[i], offset);
    ReadEntry(file, i, offset, imgs[i].png);
  }

  /** What ReadImage returns when entry `i` points at `png` inside the file. */
  lemma ReadEntry(file: seq<byte>, i: int, offset: int, png: seq<byte>)
    requires 0 <= i && 6 + 16 * i + 16 <= |file|
    requires i < Decode16(file[4..6])
    requires Decode32(file[6 + 16 * i .. 6 + 16 * i + 16][8..12]) == |png|
    requires Decode32(file[6 + 16 * i .. 6 + 16 * i + 16][12..16]) == offset
    requires 0 <= offset && offset + |png| <= |file| && file[offset .. offset + |png|] == png
    ensures ReadImage(file, i) == Some(png)
  {
  }

  /** The length and offset fields of an entry read back as the values written, when both fit in 32 bits. */
  lemma EntryFields(img: Image, offset: int)
    requires 0 <= offset && offset + |img.png| < 0x1_0000_0000
    ensures Decode32(Entry(img, offset)[8..12]) == |img.png|
    ensures Decode32(Entry(img, offset)[12..16]) == offset
  {
    var entry := Entry(img, offset);
    assert entry[8..12] == LE32(|img.png|);
    assert entry[12..16] == LE32(offset);
    LE32RoundTrip(|img.png|);
    LE32RoundTrip(offset);
  }

  /** The header's count field reads back as the number of images, cut to 16 bits as `(short)` does. */
  lemma IcoCount(imgs: seq<Image>)
    ensures Decode16(IcoFile(imgs)[4..6]) == |imgs| % 65536
  {
    var rest := Directory(imgs, FirstOffset(imgs)) + Blobs(imgs);
    assert IcoFile(imgs) == Header(|imgs|) + rest;
    assert IcoFile(imgs)[4..6] == Header(|imgs|)[4..6] == LE16(|imgs|);
    LE16RoundTrip(|imgs|);
  }

  /** The sizes SaveMultiSizeIcon draws the moon at. */
  const IconSizes: seq<int> := [16, 32, 48, 256]

  /**
   * SaveMultiSizeIcon with the drawing left out: `pngs[k]` is the PNG encoding
   * of the moon drawn at `IconSizes[k]` pixels square.
   */
  method SaveMultiSizeIcon(pngs: seq<seq<byte>>) returns (file: seq<byte>)
    requires |pngs| == |IconSizes|
    ensures file == IcoFile(MoonImages(pngs))
  {
    var bitmaps: seq<Image> := [];
    var k := 0;
    while k < |IconSizes|
      invariant 0 <= k <= |IconSizes| && bitmaps == MoonImages(pngs)[..k]
    {
      bitmaps := bitmaps + [Image(IconSizes[k], IconSizes[k], pngs[k])];
      k := k + 1;
    }
    assert bitmaps == MoonImages(pngs);
    file := SaveAsIco(bitmaps);
  }

  /** The four moon bitmaps, square, at the icon sizes. */
  function MoonImages(pngs: seq<seq<byte>>): (imgs: seq<Image>)
    requires |pngs| == |IconSizes|
    ensures |imgs| == 4
    ensures forall k | 0 <= k < 4 :: imgs[k] == Image(IconSizes[k], IconSizes[k], pngs[k])
  {
    seq(4, k requires 0 <= k < 4 => Image(IconSizes[k], IconSizes[k], pngs[k]))
  }

  /**
   * The multi-size icon has four entries; the first three record their size in
   * the width and height bytes and the 256-pixel one records 0 in both.
   */
  lemma MultiSizeEntries(pngs: seq<seq<byte>>)
    requires |pngs| == |IconSizes|
    ensures var file := IcoFile(MoonImages(pngs));
      Decode16(file[4..6]) == 4 &&
      file[6] == 16 && file[7] == 16 &&
      file[22] == 32 && file[23] == 32 &&
      file[38] == 48 && file[39] == 48 &&
      file[54] == 0 && file[55] == 0
  {
    var imgs := MoonImages(pngs);
    var file := IcoFile(imgs);
    IcoCount(imgs);
    IcoEntryAt(imgs, 0);
    IcoEntryAt(imgs, 1);
    IcoEntryAt(imgs, 2);
    IcoEntryAt(imgs, 3);
    assert file[6] == file[6..22][0];
    assert file[7] == file[6..22][1];
    assert file[22] == file[22..38][0];
    assert file[23] == file[22..38][1];
    assert file[38] == file[38..54][0];
    assert file[39] == file[38..54][1];
    assert file[54] == file[54..70][0];
    assert file[55] == file[54..70][1];
  }
}

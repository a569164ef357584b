/**
 * The format sniffer `detect_image_ext`: classifies a byte sequence by its
 * leading magic bytes.
 *  - "BM" opens a Windows bitmap;
 *  - FF D8 FF is the JPEG start-of-image marker FFD8 (Table B.1 of ITU-T T.81)
 *    followed by the first byte of the next marker;
 *  - 89 50 4E 47 are the first four of the eight signature bytes of a PNG
 *    file (section 5.2 of the W3C PNG specification, section 3.1 of RFC 2083).
 */
module Sniffer {
  import opened Wrappers
  import opened Bytes

  /** The image formats the sniffer recognises. */
  datatype Format = Bmp | Jpeg | Png {

    /** The file extension (with the dot) the script returns for this format. */
    function Extension(): string {
      match this
      case Bmp => ".bmp"
      case Jpeg => ".jpg"
      case Png => ".png"
    }
  }

  const BmpMagic: seq<Byte> := [0x42, 0x4D]
  const JpegMagic: seq<Byte> := [0xFF, 0xD8, 0xFF]
  const PngMagic: seq<Byte> := [0x89, 0x50, 0x4E, 0x47]

  /** The magic prefix that identifies `f`. */
  function Magic(f: Format): seq<Byte> {
    match f
    case Bmp => BmpMagic
    case Jpeg => JpegMagic
    case Png => PngMagic
  }

  /** `data` begins with the bytes `prefix`. */
  predicate StartsWith(data: seq<Byte>, prefix: seq<Byte>) {
    |prefix| <= |data| && data[..|prefix|] == prefix
  }

  /**
   * `detect_image_ext`: the checks are made in the order BMP, JPEG, PNG on
   * Python slices `data[:2]`, `data[:3]`, `data[:4]`, which are shorter than
   * the magic (and so never equal to it) when `data` is too short.
   * The result names a format exactly when `data` starts with that format's
   * magic, and is `None` exactly when it starts with none of them.
   */
  function DetectImageExt(data: seq<Byte>): (r: Option<Format>)
    ensures forall f :: r == Some(f) <==> StartsWith(data, Magic(f))
    ensures r.None? <==> forall f :: !StartsWith(data, Magic(f))
  {
    MagicOpensData(data);
    if Take(data, 2) == BmpMagic then Some(Bmp)
    else if Take(data, 3) == JpegMagic then Some(Jpeg)
    else if Take(data, 4) == PngMagic then Some(Png)
    else None
  }

  /** An input that starts with a magic holds that magic's first byte at index 0. */
  lemma MagicOpensData(data: seq<Byte>)
    ensures forall f :: StartsWith(data, Magic(f)) ==> |data| > 0 && data[0] == Magic(f)[0]
  {
  }

  /** No magic is shorter than two bytes, so inputs of length 0 or 1 are never recognised. */
  lemma ShortInputUnrecognised(data: seq<Byte>)
    requires |data| < 2
    ensures DetectImageExt(data).None?
  {
  }

  /** Every magic opens with a non-zero byte, so a leading zero byte is never recognised. */
  lemma LeadingZeroUnrecognised(data: seq<Byte>)
    requires |data| > 0 && data[0] == 0
    ensures DetectImageExt(data).None?
  {
  }

  /** The verdict depends only on the first four bytes. */
  lemma DependsOnFirstFour(a: seq<Byte>, b: seq<Byte>)
    requires Take(a, 4) == Take(b, 4)
    ensures DetectImageExt(a) == DetectImageExt(b)
  {
  }

  /** Appending bytes after a recognised header does not change the verdict. */
  lemma ExtensionKeepsFormat(data: seq<Byte>, more: seq<Byte>)
    requires DetectImageExt(data).Some?
    ensures DetectImageExt(data + more) == DetectImageExt(data)
  {
  }
}

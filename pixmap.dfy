/** The in-memory image of pixmap.h: a size, a pixel type and a byte buffer. */
module Pixmaps {
  import opened PixelTypes

  newtype byte = x: int | 0 <= x < 256

  datatype Pixmap = Pixmap(width: int, height: int, pixelType: PixelType, pixels: seq<byte>)

  /** operator bool: a pixmap is usable exactly when it has a pixel type. */
  predicate IsValid(p: Pixmap) {
    p.pixelType != Invalid
  }

  /** The buffer holds exactly width * height pixels of the pixmap's type. */
  predicate WellFormed(p: Pixmap) {
    p.width >= 0 && p.height >= 0 && |p.pixels| == p.width * p.height * PixelSizeInBytes(p.pixelType)
  }

  /** The default constructor: an empty pixmap of size -1 x -1 with no pixel type, which converts to false. */
  function EmptyPixmap(): (p: Pixmap)
    ensures p.width == -1 && p.height == -1 && p.pixelType == Invalid && p.pixels == []
    ensures !IsValid(p)
  {
    Pixmap(-1, -1, Invalid, [])
  }

  /**
   * The sized constructor: a zero-filled buffer of exactly
   * width * height * pixelSizeInBytes bytes (a negative product would make
   * std::vector throw, so it is excluded).
   */
  function NewPixmap(width: int, height: int, pixelType: PixelType): (p: Pixmap)
    requires width * height >= 0
    ensures p.width == width && p.height == height && p.pixelType == pixelType
    ensures |p.pixels| == width * height * PixelSizeInBytes(pixelType)
    ensures forall k :: 0 <= k < |p.pixels| ==> p.pixels[k] == 0
    ensures width >= 0 && height >= 0 ==> WellFormed(p)
    ensures IsValid(p) <==> pixelType != Invalid
  {
    Pixmap(width, height, pixelType, seq(width * height * PixelSizeInBytes(pixelType), _ => 0))
  }
}

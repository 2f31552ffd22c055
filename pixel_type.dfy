/** The pixel formats of a pixmap (pixeltype.h) and their size in bytes. */
module PixelTypes {

  datatype PixelType = Invalid | RGBA | Grayscale

  /** pixelSizeInBytes: four bytes for RGBA, one for everything else. */
  function PixelSizeInBytes(pixelType: PixelType): (n: nat)
    ensures pixelType == RGBA ==> n == 4
    ensures pixelType != RGBA ==> n == 1
  {
    match pixelType
    case RGBA => 4
    case Grayscale => 1
    case Invalid => 1
  }

  /** Every pixel type takes one or four bytes, so never zero. */
  lemma {:induction false} PixelSizeOneOrFour(pixelType: PixelType)
    ensures PixelSizeInBytes(pixelType) == 1 || PixelSizeInBytes(pixelType) == 4
    ensures PixelSizeInBytes(pixelType) >= 1
  {
    match pixelType
    case RGBA =>
    case Grayscale =>
    case Invalid =>
  }
}

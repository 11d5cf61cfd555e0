/**
 * Value types of java.awt and java.awt.geom that the interop code passes
 * around. Coordinates are exact reals: float and double rounding is not
 * modelled.
 */
module Awt {
  /** java.awt.geom.Point2D */
  datatype Point2D = Point2D(x: real, y: real)

  /** java.awt.Point (integer coordinates) */
  datatype IntPoint = IntPoint(x: int, y: int)

  /** java.awt.geom.Rectangle2D */
  datatype Rect2D = Rect2D(x: real, y: real, width: real, height: real)

  /** java.awt.Color, known by its packed ARGB value. */
  datatype Color = Color(argb: int)

  /**
   * An opaque java.awt.Shape: only its identity and its bounds are known
   * to the converters.
   */
  datatype Shape = Shape(id: nat, bounds: Rect2D)

  /** An opaque pixel mask (the image of an area ROI) with its size. */
  datatype Mask = Mask(id: nat, width: nat, height: nat)
}

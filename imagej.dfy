/**
 * The parts of ImageJ (ij.ImagePlus, ij.measure.Calibration and the
 * ij.gui.Roi family) that the interop code reads and writes, with the
 * behaviour of those library calls the conversions rely on.
 */
module ImageJ {
  import opened Wrappers
  import opened Awt
  import opened Pixels

  // ImagePlus.getType() codes
  const GRAY8: int := 0
  const GRAY16: int := 1
  const GRAY32: int := 2
  const COLOR_256: int := 3
  const COLOR_RGB: int := 4

  // Roi.getType() codes
  const RECTANGLE: int := 0
  const OVAL: int := 1
  const POLYGON: int := 2
  const FREEROI: int := 3
  const TRACED_ROI: int := 4
  const LINE: int := 5
  const POLYLINE: int := 6
  const FREELINE: int := 7
  const ANGLE: int := 8
  const COMPOSITE: int := 9
  const POINT: int := 10

  /** The type a PolygonRoi is created with. */
  datatype PolygonType = PolygonT | FreeRoiT | TracedRoiT | PolylineT | FreelineT | AngleT

  function PolygonTypeCode(k: PolygonType): int
  {
    match k
    case PolygonT => POLYGON
    case FreeRoiT => FREEROI
    case TracedRoiT => TRACED_ROI
    case PolylineT => POLYLINE
    case FreelineT => FREELINE
    case AngleT => ANGLE
  }

  /** Which Roi class was constructed, with what it was constructed from. */
  datatype RoiShape =
    | BoxRoi(bounds: Rect2D)                                      // ij.gui.Roi
    | OvalRoi(bounds: Rect2D)                                     // ij.gui.OvalRoi
    | LineRoi(x1: real, y1: real, x2: real, y2: real)             // ij.gui.Line
    | PolygonRoi(polygon: seq<Point2D>, polygonType: PolygonType) // ij.gui.PolygonRoi
    | PointRoi(points: seq<Point2D>)                              // ij.gui.PointRoi
    | ShapeRoi(shape: Shape)                                      // ij.gui.ShapeRoi
    | ImageRoi(x: int, y: int, mask: Mask, opacity: real)         // ij.gui.ImageRoi

  /** An ImageJ ROI: its shape, its 1-based hyperstack position, name and colour. */
  datatype Roi = Roi(shape: RoiShape, cPosition: int, zPosition: int, tPosition: int,
                     name: string, strokeColor: Color)

  /** Roi.getType(): ImageRoi is a rectangle, PointRoi has its own code. */
  function RoiType(s: RoiShape): int
  {
    match s
    case BoxRoi(_) => RECTANGLE
    case OvalRoi(_) => OVAL
    case LineRoi(_, _, _, _) => LINE
    case PolygonRoi(_, k) => PolygonTypeCode(k)
    case PointRoi(_) => POINT
    case ShapeRoi(_) => COMPOSITE
    case ImageRoi(_, _, _, _) => RECTANGLE
  }

  function Min(a: real, b: real): real { if a <= b then a else b }
  function Max(a: real, b: real): real { if a <= b then b else a }

  /**
   * Smallest rectangle holding every point (empty at the origin for no
   * point). It makes getFloatBounds total; the conversions read polygon
   * and point ROIs through getFloatPolygon instead.
   */
  function BoundingBox(ps: seq<Point2D>): Rect2D
  {
    if |ps| == 0 then Rect2D(0.0, 0.0, 0.0, 0.0)
    else if |ps| == 1 then Rect2D(ps[0].x, ps[0].y, 0.0, 0.0)
    else
      var b := BoundingBox(ps[1..]);
      var x := Min(ps[0].x, b.x);
      var y := Min(ps[0].y, b.y);
      Rect2D(x, y, Max(ps[0].x, b.x + b.width) - x, Max(ps[0].y, b.y + b.height) - y)
  }

  /** Roi.getFloatBounds(). A line is bounded by the box spanning its end points. */
  function FloatBounds(s: RoiShape): Rect2D
  {
    match s
    case BoxRoi(b) => b
    case OvalRoi(b) => b
    case LineRoi(x1, y1, x2, y2) => Rect2D(Min(x1, x2), Min(y1, y2), Max(x1, x2) - Min(x1, x2), Max(y1, y2) - Min(y1, y2))
    case PolygonRoi(ps, _) => BoundingBox(ps)
    case PointRoi(ps) => BoundingBox(ps)
    case ShapeRoi(shape) => shape.bounds
    case ImageRoi(x, y, mask, _) => Rect2D(x as real, y as real, mask.width as real, mask.height as real)
  }

  /** PolygonRoi.getFloatPolygon(): the vertices, in order. PointRoi is a PolygonRoi. */
  function FloatPolygon(s: RoiShape): seq<Point2D>
    requires s.PolygonRoi? || s.PointRoi?
  {
    if s.PolygonRoi? then s.polygon else s.points
  }

  /** ij.measure.Calibration: the fields the interop code reads and writes. */
  class Calibration {
    var pixelWidth: real
    var pixelHeight: real
    var pixelDepth: real
    var frameInterval: real
    var unit: string
    var timeUnit: string

    /** A new calibration: unit pixel sizes, no frame interval, unit "pixel", time unit "sec". */
    constructor ()
      ensures pixelWidth == 1.0 && pixelHeight == 1.0 && pixelDepth == 1.0
      ensures frameInterval == 0.0 && unit == "pixel" && timeUnit == "sec"
    {
      pixelWidth, pixelHeight, pixelDepth := 1.0, 1.0, 1.0;
      frameInterval := 0.0;
      unit, timeUnit := "pixel", "sec";
    }

    /** scaled(): some pixel size differs from 1 or the unit is not "pixel". */
    predicate Scaled()
      reads this
    {
      pixelWidth != 1.0 || pixelHeight != 1.0 || pixelDepth != 1.0 || unit != "pixel"
    }

    /** setUnit: an empty unit falls back to "pixel". */
    method SetUnit(u: string)
      modifies this`unit
      ensures unit == if u == "" then "pixel" else u
    {
      unit := if u == "" then "pixel" else u;
    }

    /** setTimeUnit: an empty unit falls back to "sec". */
    method SetTimeUnit(u: string)
      modifies this`timeUnit
      ensures timeUnit == if u == "" then "sec" else u
    {
      timeUnit := if u == "" then "sec" else u;
    }
  }

  /** What CompositeImage wrapping selected: none, COMPOSITE or COLOR. */
  datatype CompositeMode = NotComposite | Composite | ColorComposite

  /** 1 .. n clamp of ImagePlus.setPosition. */
  function Clamp(v: int, n: nat): int
  {
    if v > n then n else if v < 1 then 1 else v
  }

  /**
   * The pixel content of an ImagePlus: plane size, dimensions, the stack
   * of nChannels * nSlices * nFrames planes in channel-fastest order, the
   * image type and the signed 16-bit flag.
   */
  datatype Hyperstack = Hyperstack(width: nat, height: nat, nChannels: nat, nSlices: nat, nFrames: nat,
                                   stack: seq<Plane>, imageType: int, signed16: bool)
  {
    /** The dimensions describe the stack exactly. */
    predicate Valid()
    {
      nChannels >= 1 && nSlices >= 1 && nFrames >= 1 && |stack| == nSlices * nFrames * nChannels
    }

    /** The plane at 1-based (c, z, t): getStackIndex is (t-1)*C*Z + (z-1)*C + c. */
    function PlaneAt(c: int, z: int, t: int): Plane
      requires Valid()
      requires 1 <= c <= nChannels && 1 <= z <= nSlices && 1 <= t <= nFrames
    {
      var i := SliceIndex(t - 1, z - 1, c - 1, nSlices, nChannels);
      if 0 <= i < |stack| then stack[i] else []
    }
  }

  /**
   * ij.ImagePlus over an ImageStack: nChannels * nSlices * nFrames planes
   * in channel-fastest order, and a 1-based (channel, slice, frame) cursor.
   */
  class ImagePlus {
    var title: string
    var width: nat
    var height: nat
    var nChannels: nat
    var nSlices: nat
    var nFrames: nat
    var stack: seq<Plane>
    var imageType: int
    /** getLocalCalibration().isSigned16Bit() */
    var signed16: bool
    var channel: int
    var slice: int
    var frame: int
    var roi: Option<Roi>
    var cal: Calibration
    var openAsHyperStack: bool
    var compositeMode: CompositeMode

    /** The pixel content, apart from the cursor, ROI and calibration. */
    function View(): Hyperstack
      reads this`width, this`height, this`nChannels, this`nSlices, this`nFrames
      reads this`stack, this`imageType, this`signed16
    {
      Hyperstack(width, height, nChannels, nSlices, nFrames, stack, imageType, signed16)
    }

    /** The dimensions describe the stack exactly. */
    predicate Valid()
      reads this`width, this`height, this`nChannels, this`nSlices, this`nFrames
      reads this`stack, this`imageType, this`signed16
    {
      View().Valid()
    }

    /** The cursor names a plane. */
    ghost predicate PositionInRange()
      reads this
    {
      1 <= channel <= nChannels && 1 <= slice <= nSlices && 1 <= frame <= nFrames
    }

    /** The plane at 1-based (c, z, t). */
    function PlaneAt(c: int, z: int, t: int): Plane
      reads this`width, this`height, this`nChannels, this`nSlices, this`nFrames
      reads this`stack, this`imageType, this`signed16
      requires Valid()
      requires 1 <= c <= nChannels && 1 <= z <= nSlices && 1 <= t <= nFrames
    {
      View().PlaneAt(c, z, t)
    }

    /** getProcessor().getPixels(): the plane under the cursor. */
    function Pixels(): Plane
      reads this
      requires Valid() && PositionInRange()
    {
      PlaneAt(channel, slice, frame)
    }

    /** getNDimensions(): 2 plus one per dimension of size above 1. */
    function NDimensions(): (n: int)
      reads this`nChannels, this`nSlices, this`nFrames
      ensures 2 <= n <= 5
      ensures n > 3 <==> (nChannels > 1 && nSlices > 1) || (nChannels > 1 && nFrames > 1) || (nSlices > 1 && nFrames > 1)
    {
      2 + (if nChannels > 1 then 1 else 0) + (if nSlices > 1 then 1 else 0) + (if nFrames > 1 then 1 else 0)
    }

    /**
     * new ImagePlus(title, stack): one channel and one frame, the stack
     * read as slices, the cursor on the first plane, no ROI and a fresh
     * calibration. imageType is what the stack's pixel arrays give.
     */
    constructor (title: string, width: nat, height: nat, stack: seq<Plane>, imageType: int)
      requires |stack| >= 1
      ensures Valid() && PositionInRange()
      ensures this.title == title && this.width == width && this.height == height
      ensures this.stack == stack && this.imageType == imageType && !signed16
      ensures nChannels == 1 && nSlices == |stack| && nFrames == 1
      ensures channel == 1 && slice == 1 && frame == 1
      ensures roi.None? && !openAsHyperStack && compositeMode == NotComposite
      ensures fresh(cal)
      ensures cal.pixelWidth == 1.0 && cal.pixelHeight == 1.0 && cal.pixelDepth == 1.0
      ensures cal.frameInterval == 0.0 && cal.unit == "pixel" && cal.timeUnit == "sec"
    {
      this.title, this.width, this.height := title, width, height;
      this.stack, this.imageType, signed16 := stack, imageType, false;
      nChannels, nSlices, nFrames := 1, |stack|, 1;
      channel, slice, frame := 1, 1, 1;
      roi, openAsHyperStack, compositeMode := None, false, NotComposite;
      cal := new Calibration();
    }

    /** setPosition(c, z, t): each coordinate clamped to its dimension. */
    method SetPosition(c: int, z: int, t: int)
      requires Valid()
      modifies this`channel, this`slice, this`frame
      ensures channel == Clamp(c, nChannels) && slice == Clamp(z, nSlices) && frame == Clamp(t, nFrames)
      ensures PositionInRange()
    {
      channel, slice, frame := Clamp(c, nChannels), Clamp(z, nSlices), Clamp(t, nFrames);
    }

    /**
     * setDimensions(c, z, t): taken when c * z * t is the stack size,
     * otherwise the stack is read as slices of one channel and one frame.
     */
    method SetDimensions(c: nat, z: nat, t: nat)
      requires Valid()
      modifies this`nChannels, this`nSlices, this`nFrames
      ensures Valid()
      ensures c * z * t == |stack| ==> nChannels == c && nSlices == z && nFrames == t
      ensures c * z * t != |stack| ==> nChannels == 1 && nSlices == |stack| && nFrames == 1
    {
      if c * z * t == |stack| {
        assert z * t * c == c * z * t;
        nChannels, nSlices, nFrames := c, z, t;
      } else {
        nChannels, nSlices, nFrames := 1, |stack|, 1;
      }
    }

    /** setRoi */
    method SetRoi(r: Roi)
      modifies this`roi
      ensures roi == Some(r)
    {
      roi := Some(r);
    }

    /** setOpenAsHyperStack */
    method SetOpenAsHyperStack(b: bool)
      modifies this`openAsHyperStack
      ensures openAsHyperStack == b
    {
      openAsHyperStack := b;
    }

    /** new CompositeImage(this, mode): the same planes shown in the given mode. */
    method MakeComposite(mode: CompositeMode)
      modifies this`compositeMode
      ensures compositeMode == mode
    {
      compositeMode := mode;
    }
  }
}

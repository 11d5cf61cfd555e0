/**
 * The parts of Icy's own model (icy.sequence.Sequence, icy.image.IcyBufferedImage
 * and the icy.roi.ROI2D family) that the interop code reads and writes.
 */
module Icy {
  import opened Awt
  import opened Pixels

  /** The concrete ROI2D class and the geometry it holds. */
  datatype Geometry =
    | Rectangle(bounds: Rect2D)                         // ROI2DRectangle
    | Ellipse(bounds: Rect2D)                           // ROI2DEllipse
    | Line(p1: Point2D, p2: Point2D)                    // ROI2DLine
    | Polygon(points: seq<Point2D>)                     // ROI2DPolygon
    | Polyline(points: seq<Point2D>)                    // ROI2DPolyLine
    | Path(shape: Shape, position: Point2D)             // ROI2DPath
    | Point(p: Point2D)                                 // ROI2DPoint
    | Area(origin: IntPoint, mask: Mask, alpha: real)   // ROI2DArea
    | Generic(bounds: Rect2D)                           // a ROI2D that is neither a ROI2DShape nor a ROI2DArea

  /** ROI2D: a geometry on the 0-based (C, Z, T) position, -1 meaning all. */
  datatype Roi2D = Roi2D(geometry: Geometry, c: int, z: int, t: int,
                         selected: bool, name: string, color: Color)

  /**
   * Name and colour a new ROI2D starts with. Their values in Icy are not
   * part of this model.
   */
  const DefaultName: string := ""
  const DefaultColor: Color := Color(0)

  /** A fresh ROI2D with the given geometry, not yet placed. */
  function NewRoi(g: Geometry): Roi2D
  {
    Roi2D(g, -1, -1, -1, false, DefaultName, DefaultColor)
  }

  /**
   * What one slot of the channel array of an IcyBufferedImage holds:
   * the samples of a plane, or what ArrayMath.subtract returns when it is
   * given the whole channel array, which this model does not interpret.
   */
  datatype ChannelData = Samples(values: Plane) | WholeArraySubtracted(channel: nat)

  /**
   * IcyBufferedImage: built from per-channel data, or by
   * IcyBufferedImage.createFrom on a java.awt image of the given plane,
   * which this model does not interpret further.
   */
  datatype IcyImage =
    | IcyImage(sizeX: nat, sizeY: nat, channels: seq<ChannelData>, signed: bool)
    | FromAwtImage(sizeX: nat, sizeY: nat, source: Plane)

  /** Image (t, z) holds sizeC planes of samples. */
  predicate HasSamples(images: map<(nat, nat), IcyImage>, sizeC: nat, t: nat, z: nat)
  {
    && (t, z) in images
    && images[(t, z)].IcyImage?
    && |images[(t, z)].channels| == sizeC
    && forall c :: 0 <= c < sizeC ==> images[(t, z)].channels[c].Samples?
  }

  /** Every (t, z) of a sizeT by sizeZ extent holds sizeC sample planes. */
  predicate Filled(images: map<(nat, nat), IcyImage>, sizeT: nat, sizeZ: nat, sizeC: nat)
  {
    forall t: nat, z: nat :: t < sizeT && z < sizeZ ==> HasSamples(images, sizeC, t, z)
  }

  /** The samples of channel c of image (t, z); no samples where there are none. */
  function Data(images: map<(nat, nat), IcyImage>, t: nat, z: nat, c: nat): Plane
  {
    if (t, z) in images && images[(t, z)].IcyImage? && c < |images[(t, z)].channels|
       && images[(t, z)].channels[c].Samples?
    then images[(t, z)].channels[c].values
    else []
  }

  /**
   * icy.sequence.Sequence: images indexed by (t, z), ROIs, calibration and
   * the begin/end update nesting level.
   */
  class Sequence {
    var name: string
    var sizeX: nat
    var sizeY: nat
    var sizeC: nat
    var sizeZ: nat
    var sizeT: nat
    var images: map<(nat, nat), IcyImage>
    var rois: seq<Roi2D>
    var pixelSizeX: real
    var pixelSizeY: real
    var pixelSizeZ: real
    var timeInterval: real
    var updateLevel: nat

    /** new Sequence(name): empty, with unit pixel sizes and time interval. */
    constructor (name: string)
      ensures this.name == name
      ensures sizeX == 0 && sizeY == 0 && sizeC == 0 && sizeZ == 0 && sizeT == 0
      ensures images == map[] && rois == []
      ensures pixelSizeX == 1.0 && pixelSizeY == 1.0 && pixelSizeZ == 1.0 && timeInterval == 1.0
      ensures updateLevel == 0
    {
      this.name := name;
      sizeX, sizeY, sizeC, sizeZ, sizeT := 0, 0, 0, 0, 0;
      images, rois := map[], [];
      pixelSizeX, pixelSizeY, pixelSizeZ, timeInterval := 1.0, 1.0, 1.0, 1.0;
      updateLevel := 0;
    }

    /** Every (t, z) of the sequence's extent holds sample planes. */
    ghost predicate Complete()
      reads this
    {
      Filled(images, sizeT, sizeZ, sizeC)
    }

    /** getDataXY(t, z, c): the samples of channel c of image (t, z). */
    function DataXY(t: nat, z: nat, c: nat): Plane
      reads this
      requires HasSamples(images, sizeC, t, z) && c < sizeC
    {
      Data(images, t, z, c)
    }

    /**
     * setImage(t, z, image): install the image; the extent grows to hold
     * it, the image sets the plane size, and an image built from channel
     * data sets the channel count.
     */
    method SetImage(t: nat, z: nat, image: IcyImage)
      modifies this`images, this`sizeT, this`sizeZ, this`sizeX, this`sizeY, this`sizeC
      ensures images == old(images)[(t, z) := image]
      ensures sizeT == if t + 1 > old(sizeT) then t + 1 else old(sizeT)
      ensures sizeZ == if z + 1 > old(sizeZ) then z + 1 else old(sizeZ)
      ensures sizeX == image.sizeX && sizeY == image.sizeY
      ensures sizeC == if image.IcyImage? then |image.channels| else old(sizeC)
    {
      images := images[(t, z) := image];
      if t + 1 > sizeT {
        sizeT := t + 1;
      }
      if z + 1 > sizeZ {
        sizeZ := z + 1;
      }
      sizeX, sizeY := image.sizeX, image.sizeY;
      if image.IcyImage? {
        sizeC := |image.channels|;
      }
    }

    /** addROI: append the ROI. */
    method AddRoi(r: Roi2D)
      modifies this`rois
      ensures rois == old(rois) + [r]
    {
      rois := rois + [r];
    }

    // setPixelSizeX, setPixelSizeY, setPixelSizeZ, setTimeInterval
    method SetPixelSizeX(v: real) modifies this`pixelSizeX ensures pixelSizeX == v { pixelSizeX := v; }
    method SetPixelSizeY(v: real) modifies this`pixelSizeY ensures pixelSizeY == v { pixelSizeY := v; }
    method SetPixelSizeZ(v: real) modifies this`pixelSizeZ ensures pixelSizeZ == v { pixelSizeZ := v; }
    method SetTimeInterval(v: real) modifies this`timeInterval ensures timeInterval == v { timeInterval := v; }

    /** beginUpdate: open one more level of grouped changes. */
    method BeginUpdate()
      modifies this`updateLevel
      ensures updateLevel == old(updateLevel) + 1
    {
      updateLevel := updateLevel + 1;
    }

    /** endUpdate: close one level of grouped changes. */
    method EndUpdate()
      requires updateLevel > 0
      modifies this`updateLevel
      ensures updateLevel == old(updateLevel) - 1
    {
      updateLevel := updateLevel - 1;
    }
  }
}

/**
 * ImageJUtil: conversion of images, calibrations and ROIs between Icy and
 * ImageJ, in both directions.
 */
module ImageJUtil {
  import opened Wrappers
  import opened Awt
  import opened Pixels
  import opened ImageJ
  import opened Icy

  // ---------------------------------------------------------------------
  // ImageJ ROI to Icy ROIs

  /**
   * The geometries convertToIcyRoi builds for an ImageJ ROI, by its type
   * code: one geometry, except that a point ROI gives one Icy point per
   * vertex; ovals and rectangles keep the float bounds.
   */
  function ImportedGeometries(s: RoiShape): (gs: seq<Geometry>)
    ensures RoiType(s) != POINT ==> |gs| == 1
    ensures RoiType(s) == POINT ==>
      |gs| == |FloatPolygon(s)| && forall i :: 0 <= i < |gs| ==> gs[i] == Point(FloatPolygon(s)[i])
    ensures RoiType(s) == OVAL ==> gs == [Ellipse(FloatBounds(s))]
    ensures RoiType(s) == RECTANGLE ==> gs == [Rectangle(FloatBounds(s))]
  {
    var code := RoiType(s);
    if code == OVAL then [Ellipse(FloatBounds(s))]
    else if code == LINE then
      var r := FloatBounds(s);
      [Line(Point2D(r.x, r.y), Point2D(r.x + r.width, r.y + r.height))]
    else if code == POLYGON || code == TRACED_ROI || code == FREEROI then [Polygon(FloatPolygon(s))]
    else if code == FREELINE || code == POLYLINE || code == ANGLE then [Polyline(FloatPolygon(s))]
    else if code == COMPOSITE then [Path(s.shape, Point2D(FloatBounds(s).x, FloatBounds(s).y))]
    else if code == POINT then
      var ps := FloatPolygon(s);
      seq(|ps|, i requires 0 <= i < |ps| => Point(ps[i]))
    else [Rectangle(FloatBounds(s))]
  }

  /** An imported ROI: 1-based ImageJ position made 0-based, not selected. */
  function Placed(g: Geometry, roi: ImageJ.Roi): Roi2D
  {
    NewRoi(g).(c := roi.cPosition - 1, z := roi.zPosition - 1, t := roi.tPosition - 1, selected := false)
  }

  /** What convertToIcyRoi returns. */
  function ImportedRois(roi: ImageJ.Roi): seq<Roi2D>
  {
    var gs := ImportedGeometries(roi.shape);
    seq(|gs|, i requires 0 <= i < |gs| => Placed(gs[i], roi))
  }

  /** The loop copying getFloatPolygon() into the point list. */
  method ReadPolygon(s: RoiShape) returns (pts: seq<Point2D>)
    requires s.PolygonRoi? || s.PointRoi?
    ensures pts == FloatPolygon(s)
  {
    var fp := FloatPolygon(s);
    pts := [];
    var p := 0;
    while p < |fp|
      invariant 0 <= p <= |fp|
      invariant pts == fp[..p]
    {
      pts := pts + [fp[p]];
      p := p + 1;
    }
  }

  /**
   * convertToIcyRoi: the ROIs for an ImageJ ROI, each on the ImageJ
   * position shifted to 0-based and unselected.
   */
  method ConvertToIcyRoi(roi: ImageJ.Roi) returns (result: seq<Roi2D>)
    ensures result == ImportedRois(roi)
    ensures forall i :: 0 <= i < |result| ==>
      && result[i].c == roi.cPosition - 1
      && result[i].z == roi.zPosition - 1
      && result[i].t == roi.tPosition - 1
      && !result[i].selected
  {
    var s := roi.shape;
    var made: seq<Roi2D> := [];
    var code := RoiType(s);
    if code == OVAL {
      made := [NewRoi(Ellipse(FloatBounds(s)))];
    } else if code == LINE {
      var rect := FloatBounds(s);
      var x := rect.x;
      var y := rect.y;
      made := [NewRoi(Line(Point2D(x, y), Point2D(x + rect.width, y + rect.height)))];
    } else if code == POLYGON || code == TRACED_ROI || code == FREEROI {
      var pts := ReadPolygon(s);
      made := [NewRoi(Polygon(pts))];
    } else if code == FREELINE || code == POLYLINE || code == ANGLE {
      var pts := ReadPolygon(s);
      made := [NewRoi(Polyline(pts))];
    } else if code == COMPOSITE {
      var roiBounds := FloatBounds(s);
      made := [NewRoi(Path(s.shape, Point2D(roiBounds.x, roiBounds.y)))];
    } else if code == POINT {
      var pts := ReadPolygon(s);
      var k := 0;
      while k < |pts|
        invariant 0 <= k <= |pts|
        invariant |made| == k
        invariant forall i :: 0 <= i < k ==> made[i] == NewRoi(Point(pts[i]))
      {
        made := made + [NewRoi(Point(pts[k]))];
        k := k + 1;
      }
    } else {
      made := [NewRoi(Rectangle(FloatBounds(s)))];
    }
    var gs := ImportedGeometries(s);
    assert |made| == |gs| && forall i :: 0 <= i < |made| ==> made[i] == NewRoi(gs[i]);
    result := made;
    var i := 0;
    while i < |result|
      invariant 0 <= i <= |result| && |result| == |made|
      invariant forall j :: 0 <= j < i ==> result[j] == Placed(gs[j], roi)
      invariant forall j :: i <= j < |result| ==> result[j] == made[j]
    {
      result := result[i := result[i].(c := roi.cPosition - 1, z := roi.zPosition - 1, t := roi.tPosition - 1)];
      result := result[i := result[i].(selected := false)];
      i := i + 1;
    }
  }

  /** A point ROI becomes one Icy point per vertex, in vertex order. */
  lemma PointRoiFansOut(roi: ImageJ.Roi)
    requires roi.shape.PointRoi?
    ensures var rs := ImportedRois(roi);
      |rs| == |roi.shape.points| &&
      forall i :: 0 <= i < |rs| ==> rs[i].geometry == Point(roi.shape.points[i])
  {
  }

  /**
   * Every ImageJ polygon type gives one Icy ROI whose points are the
   * polygon's vertices in order: a Polygon for the closed types, a
   * Polyline for the open ones.
   */
  lemma PolygonRoiKeepsVertices(roi: ImageJ.Roi)
    requires roi.shape.PolygonRoi?
    ensures var rs := ImportedRois(roi);
      var k := roi.shape.polygonType;
      && |rs| == 1
      && (k in {PolygonT, TracedRoiT, FreeRoiT} ==> rs[0].geometry == Polygon(roi.shape.polygon))
      && (k in {PolylineT, FreelineT, AngleT} ==> rs[0].geometry == Polyline(roi.shape.polygon))
  {
  }

  /** Exactly point ROIs give other than one Icy ROI. */
  lemma ImportCount(roi: ImageJ.Roi)
    ensures roi.shape.PointRoi? ==> |ImportedRois(roi)| == |roi.shape.points|
    ensures !roi.shape.PointRoi? ==> |ImportedRois(roi)| == 1
  {
  }

  // ---------------------------------------------------------------------
  // Icy ROI to ImageJ ROI

  /**
   * The ImageJ shape convertToImageJRoi builds, by the concrete Icy ROI
   * class; its getType() is the code that convertToIcyRoi dispatches on.
   */
  function ExportedShape(g: Geometry): (r: RoiShape)
    ensures g.Point? ==> RoiType(r) == POINT
    ensures g.Line? ==> RoiType(r) == LINE
    ensures g.Ellipse? ==> RoiType(r) == OVAL
    ensures g.Polygon? ==> RoiType(r) == POLYGON
    ensures g.Polyline? ==> RoiType(r) == POLYLINE
    ensures g.Path? ==> RoiType(r) == COMPOSITE
    ensures g.Rectangle? || g.Area? || g.Generic? ==> RoiType(r) == RECTANGLE
  {
    match g
    case Point(p) => PointRoi([p])
    case Line(p1, p2) => LineRoi(p1.x, p1.y, p2.x, p2.y)
    case Rectangle(b) => BoxRoi(b)
    case Ellipse(b) => OvalRoi(b)
    case Polyline(ps) => PolygonRoi(ps, PolylineT)
    case Polygon(ps) => PolygonRoi(ps, PolygonT)
    case Path(shape, _) => ShapeRoi(shape)
    case Area(o, mask, alpha) => ImageRoi(o.x, o.y, mask, alpha)
    case Generic(b) => BoxRoi(b)
  }

  /** What convertToImageJRoi returns. */
  function ExportedRoi(r: Roi2D): ImageJ.Roi
  {
    ImageJ.Roi(ExportedShape(r.geometry), r.c + 1, r.z + 1, r.t + 1, r.name, r.color)
  }

  /**
   * convertToImageJRoi: the ImageJ ROI for an Icy ROI, on the 1-based
   * position, with the ROI's name and colour.
   */
  method ConvertToImageJRoi(r: Roi2D) returns (result: ImageJ.Roi)
    ensures result == ExportedRoi(r)
    ensures result.cPosition == r.c + 1 && result.zPosition == r.z + 1 && result.tPosition == r.t + 1
    ensures result.name == r.name && result.strokeColor == r.color
  {
    var shape: RoiShape;
    match r.geometry {
      case Point(p) =>
        shape := PointRoi([p]);
      case Line(p1, p2) =>
        shape := LineRoi(p1.x, p1.y, p2.x, p2.y);
      case Rectangle(b) =>
        shape := BoxRoi(b);
      case Ellipse(b) =>
        shape := OvalRoi(b);
      case Polyline(pts) =>
        var fp := CopyPoints(pts);
        shape := PolygonRoi(fp, PolylineT);
      case Polygon(pts) =>
        var fp := CopyPoints(pts);
        shape := PolygonRoi(fp, PolygonT);
      case Path(s, _) =>
        shape := ShapeRoi(s);
      case Area(p, mask, alpha) =>
        shape := ImageRoi(p.x, p.y, mask, alpha);
      case Generic(b) =>
        shape := BoxRoi(b);
    }
    result := ImageJ.Roi(shape, 0, 0, 0, "", Color(0));
    result := result.(cPosition := r.c + 1, zPosition := r.z + 1, tPosition := r.t + 1);
    result := result.(name := r.name);
    result := result.(strokeColor := r.color);
  }

  /** The loop adding every point to a new FloatPolygon. */
  method CopyPoints(pts: seq<Point2D>) returns (fp: seq<Point2D>)
    ensures fp == pts
  {
    fp := [];
    var i := 0;
    while i < |pts|
      invariant 0 <= i <= |pts|
      invariant fp == pts[..i]
    {
      fp := fp + [pts[i]];
      i := i + 1;
    }
  }

  /**
   * Export then import keeps the ROI's position, leaves it unselected
   * and gives it the default name and colour.
   */
  lemma {:induction false} RoundTripKeepsPosition(r: Roi2D)
    ensures var rs := ImportedRois(ExportedRoi(r));
      && |rs| == 1
      && rs[0].c == r.c && rs[0].z == r.z && rs[0].t == r.t
      && !rs[0].selected && rs[0].name == DefaultName && rs[0].color == DefaultColor
  {
  }

  /** Rectangles, ellipses, polygons, polylines and points survive export then import unchanged. */
  lemma RoundTripKeepsGeometry(r: Roi2D)
    requires r.geometry.Rectangle? || r.geometry.Ellipse? || r.geometry.Polygon?
          || r.geometry.Polyline? || r.geometry.Point?
    ensures ImportedRois(ExportedRoi(r)) == [r.(selected := false, name := DefaultName, color := DefaultColor)]
  {
  }

  /**
   * A line comes back spanning the same box from its top-left to its
   * bottom-right corner, so it comes back unchanged exactly when its
   * first point is above and left of its second.
   */
  lemma RoundTripLine(r: Roi2D)
    requires r.geometry.Line?
    ensures var p1, p2 := r.geometry.p1, r.geometry.p2;
      ImportedRois(ExportedRoi(r))[0].geometry
        == Line(Point2D(Min(p1.x, p2.x), Min(p1.y, p2.y)), Point2D(Max(p1.x, p2.x), Max(p1.y, p2.y)))
    ensures ImportedRois(ExportedRoi(r))[0].geometry == r.geometry
      <==> r.geometry.p1.x <= r.geometry.p2.x && r.geometry.p1.y <= r.geometry.p2.y
  {
  }

  /**
   * An area comes back as the rectangle of its mask, a path with its
   * position moved to the shape's corner, any other ROI as the
   * rectangle of its bounds.
   */
  lemma RoundTripOthers(r: Roi2D)
    ensures r.geometry.Area? ==>
      var g := r.geometry;
      ImportedRois(ExportedRoi(r))[0].geometry
        == Rectangle(Rect2D(g.origin.x as real, g.origin.y as real, g.mask.width as real, g.mask.height as real))
    ensures r.geometry.Path? ==>
      ImportedRois(ExportedRoi(r))[0].geometry
        == Path(r.geometry.shape, Point2D(r.geometry.shape.bounds.x, r.geometry.shape.bounds.y))
    ensures r.geometry.Generic? ==>
      ImportedRois(ExportedRoi(r))[0].geometry == Rectangle(r.geometry.bounds)
  {
  }

  /**
   * Import then export gives back an ImageJ rectangle, oval, polygon,
   * polyline or single point on the same position; the name is lost.
   */
  lemma ImportThenExport(roi: ImageJ.Roi)
    requires || roi.shape.BoxRoi? || roi.shape.OvalRoi?
             || (roi.shape.PolygonRoi? && roi.shape.polygonType in {PolygonT, PolylineT})
             || (roi.shape.PointRoi? && |roi.shape.points| == 1)
    ensures ExportedRoi(ImportedRois(roi)[0]) == roi.(name := DefaultName, strokeColor := DefaultColor)
  {
  }

  // ---------------------------------------------------------------------
  // Calibration

  /**
   * calibrateIcySequence: with a calibration, pixel sizes are copied when
   * it is scaled and the frame interval always; without one nothing
   * changes.
   */
  method CalibrateIcySequence(sequence: Sequence, cal: Calibration?)
    modifies sequence`pixelSizeX, sequence`pixelSizeY, sequence`pixelSizeZ, sequence`timeInterval
    ensures cal != null && cal.Scaled() ==>
      && sequence.pixelSizeX == cal.pixelWidth
      && sequence.pixelSizeY == cal.pixelHeight
      && sequence.pixelSizeZ == cal.pixelDepth
    ensures (cal == null || !cal.Scaled()) ==>
      && sequence.pixelSizeX == old(sequence.pixelSizeX)
      && sequence.pixelSizeY == old(sequence.pixelSizeY)
      && sequence.pixelSizeZ == old(sequence.pixelSizeZ)
    ensures sequence.timeInterval == if cal != null then cal.frameInterval else old(sequence.timeInterval)
  {
    if cal != null {
      if cal.Scaled() {
        sequence.SetPixelSizeX(cal.pixelWidth);
        sequence.SetPixelSizeY(cal.pixelHeight);
        sequence.SetPixelSizeZ(cal.pixelDepth);
      }
      sequence.SetTimeInterval(cal.frameInterval);
    }
  }

  /** Some pixel size of the sequence differs from Icy's default of 1. */
  predicate PixelSizeSet(sequence: Sequence)
    reads sequence
  {
    sequence.pixelSizeX != 1.0 || sequence.pixelSizeY != 1.0 || sequence.pixelSizeZ != 1.0
  }

  /**
   * calibrateImageJImage: pixel sizes and unit "mm" are written only
   * when some pixel size differs from 1, the frame interval and unit
   * "msec" only when the time interval differs from 1; then the
   * dimensions are set to the sequence's (C, Z, T) and the image opens as
   * a hyperstack when it has more than three dimensions.
   */
  method CalibrateImageJImage(image: ImagePlus, sequence: Sequence)
    requires image.Valid()
    modifies image.cal, image`nChannels, image`nSlices, image`nFrames, image`openAsHyperStack
    ensures image.Valid()
    ensures PixelSizeSet(sequence) ==>
      && image.cal.pixelWidth == sequence.pixelSizeX
      && image.cal.pixelHeight == sequence.pixelSizeY
      && image.cal.pixelDepth == sequence.pixelSizeZ
      && image.cal.unit == "mm"
    ensures !PixelSizeSet(sequence) ==>
      && image.cal.pixelWidth == old(image.cal.pixelWidth)
      && image.cal.pixelHeight == old(image.cal.pixelHeight)
      && image.cal.pixelDepth == old(image.cal.pixelDepth)
      && image.cal.unit == old(image.cal.unit)
    ensures sequence.timeInterval != 1.0 ==>
      image.cal.frameInterval == sequence.timeInterval && image.cal.timeUnit == "msec"
    ensures sequence.timeInterval == 1.0 ==>
      image.cal.frameInterval == old(image.cal.frameInterval) && image.cal.timeUnit == old(image.cal.timeUnit)
    ensures sequence.sizeC * sequence.sizeZ * sequence.sizeT == |image.stack| ==>
      image.nChannels == sequence.sizeC && image.nSlices == sequence.sizeZ && image.nFrames == sequence.sizeT
    ensures sequence.sizeC * sequence.sizeZ * sequence.sizeT != |image.stack| ==>
      image.nChannels == 1 && image.nSlices == |image.stack| && image.nFrames == 1
    ensures image.openAsHyperStack == (image.NDimensions() > 3)
  {
    CopyCalibration(image.cal, sequence);
    image.SetDimensions(sequence.sizeC, sequence.sizeZ, sequence.sizeT);
    image.SetOpenAsHyperStack(image.NDimensions() > 3);
  }

  /** The calibration half of calibrateImageJImage. */
  method CopyCalibration(cal: Calibration, sequence: Sequence)
    modifies cal
    ensures PixelSizeSet(sequence) ==>
      && cal.pixelWidth == sequence.pixelSizeX
      && cal.pixelHeight == sequence.pixelSizeY
      && cal.pixelDepth == sequence.pixelSizeZ
      && cal.unit == "mm"
    ensures !PixelSizeSet(sequence) ==>
      && cal.pixelWidth == old(cal.pixelWidth)
      && cal.pixelHeight == old(cal.pixelHeight)
      && cal.pixelDepth == old(cal.pixelDepth)
      && cal.unit == old(cal.unit)
    ensures sequence.timeInterval != 1.0 ==>
      cal.frameInterval == sequence.timeInterval && cal.timeUnit == "msec"
    ensures sequence.timeInterval == 1.0 ==>
      cal.frameInterval == old(cal.frameInterval) && cal.timeUnit == old(cal.timeUnit)
  {
    var psx := sequence.pixelSizeX;
    var psy := sequence.pixelSizeY;
    var psz := sequence.pixelSizeZ;
    if psx != 1.0 || psy != 1.0 || psz != 1.0 {
      cal.pixelWidth := psx;
      cal.pixelHeight := psy;
      cal.pixelDepth := psz;
      cal.SetUnit("mm");
    }
    var ti := sequence.timeInterval;
    if ti != 1.0 {
      cal.frameInterval := ti;
      cal.SetTimeUnit("msec");
    }
  }

  /**
   * Calibration from Icy to ImageJ and back, onto a new sequence: pixel
   * sizes come back unchanged; a time interval comes back unchanged
   * unless it is Icy's default of 1, which ImageJ's default frame
   * interval of 0 replaces.
   */
  method CalibrationRoundTrip(psx: real, psy: real, psz: real, ti: real)
    returns (psx': real, psy': real, psz': real, ti': real)
    ensures psx' == psx && psy' == psy && psz' == psz
    ensures ti' == if ti == 1.0 then 0.0 else ti
  {
    var source := new Sequence("");
    source.pixelSizeX, source.pixelSizeY, source.pixelSizeZ, source.timeInterval := psx, psy, psz, ti;
    source.sizeC, source.sizeZ, source.sizeT := 1, 1, 1;
    var image := new ImagePlus("", 1, 1, [[0]], GRAY8);
    CalibrateImageJImage(image, source);
    var back := new Sequence("");
    CalibrateIcySequence(back, image.cal);
    psx', psy', psz', ti' := back.pixelSizeX, back.pixelSizeY, back.pixelSizeZ, back.timeInterval;
  }

  // ---------------------------------------------------------------------
  // Icy sequence to ImageJ image

  /**
   * With a listener, count reports of progress out of len were made, each
   * at the position before it plus one when the position counts up, and
   * all at 0 when it stays; without one, nothing was reported.
   */
  predicate Reported(progress: seq<(int, int)>, listen: bool, count: nat, len: int, counting: bool)
    decreases count
  {
    if !listen || count == 0 then progress == []
    else
      && |progress| == count
      && progress[count - 1] == (if counting then count - 1 else 0, len)
      && Reported(progress[..count - 1], listen, count - 1, len, counting)
  }

  /** The reports, one by one: the k-th is at position k, or at 0 when the position stays. */
  lemma {:induction false} ReportedEach(progress: seq<(int, int)>, listen: bool, count: nat, len: int, counting: bool)
    requires Reported(progress, listen, count, len, counting)
    ensures listen ==> |progress| == count
    ensures listen ==> forall k :: 0 <= k < count ==> progress[k] == (if counting then k else 0, len)
    ensures !listen ==> progress == []
    decreases count
  {
    if listen && count > 0 {
      ReportedEach(progress[..count - 1], listen, count - 1, len, counting);
    }
  }

  /** progressListener.notifyProgress(position, len), when there is a listener. */
  function Notify(progress: seq<(int, int)>, listen: bool, position: int, len: int): seq<(int, int)>
  {
    if listen then progress + [(position, len)] else progress
  }

  /** One more report at the next position keeps the reports in order. */
  lemma ReportedNext(progress: seq<(int, int)>, listen: bool, count: nat, len: int, counting: bool, position: int)
    requires Reported(progress, listen, count, len, counting)
    requires position == if counting then count else 0
    ensures Reported(Notify(progress, listen, position, len), listen, count + 1, len, counting)
  {
    if listen {
      assert (progress + [(position, len)])[..count] == progress;
    }
  }

  /** Planes of channels 0 .. c - 1 of image (t, z), in channel order. */
  function ChannelPlanes(images: map<(nat, nat), IcyImage>, t: nat, z: nat, c: nat): (r: seq<Plane>)
    ensures |r| == c
    ensures forall c' :: 0 <= c' < c ==> r[c'] == Data(images, t, z, c')
  {
    if c == 0 then [] else ChannelPlanes(images, t, z, c - 1) + [Data(images, t, z, c - 1)]
  }

  /** Planes of slices 0 .. z - 1 of time point t, each slice's sizeC channels in order. */
  function SlicePlanes(images: map<(nat, nat), IcyImage>, sizeC: nat, t: nat, z: nat): seq<Plane>
  {
    if z == 0 then [] else SlicePlanes(images, sizeC, t, z - 1) + ChannelPlanes(images, t, z - 1, sizeC)
  }

  /** Planes of time points 0 .. t - 1, each time point's sizeZ slices in order. */
  function TimePlanes(images: map<(nat, nat), IcyImage>, sizeZ: nat, sizeC: nat, t: nat): seq<Plane>
  {
    if t == 0 then [] else TimePlanes(images, sizeZ, sizeC, t - 1) + SlicePlanes(images, sizeC, t - 1, sizeZ)
  }

  /** The planes of z slices number C * z. */
  lemma {:induction false} SlicePlanesLength(images: map<(nat, nat), IcyImage>, sizeC: nat, t: nat, z: nat)
    ensures |SlicePlanes(images, sizeC, t, z)| == sizeC * z
  {
    if z > 0 {
      SlicePlanesLength(images, sizeC, t, z - 1);
      MulStep(sizeC, z - 1);
    }
  }

  /** The planes of t time points number C * (Z * t). */
  lemma {:induction false} TimePlanesLength(images: map<(nat, nat), IcyImage>, sizeZ: nat, sizeC: nat, t: nat)
    ensures |TimePlanes(images, sizeZ, sizeC, t)| == sizeC * (sizeZ * t)
  {
    if t > 0 {
      TimePlanesLength(images, sizeZ, sizeC, t - 1);
      SlicePlanesLength(images, sizeC, t - 1, sizeZ);
      MulStep(sizeZ, t - 1);
      MulDistributes(sizeC, sizeZ * (t - 1), sizeZ);
    }
  }

  lemma MulStep(a: nat, b: nat)
    ensures a * b + a == a * (b + 1)
  {
  }

  lemma MulDistributes(a: nat, b: nat, c: nat)
    ensures a * b + a * c == a * (b + c)
  {
  }

  /** Plane (t, z', c) sits at c + C * z' among the planes of time point t. */
  lemma {:induction false} SlicePlanesAt(images: map<(nat, nat), IcyImage>, sizeC: nat, t: nat, z: nat, z': nat, c: nat)
    requires z' < z && c < sizeC
    ensures c + sizeC * z' < |SlicePlanes(images, sizeC, t, z)|
    ensures SlicePlanes(images, sizeC, t, z)[c + sizeC * z'] == Data(images, t, z', c)
  {
    if z' < z - 1 {
      SlicePlanesAt(images, sizeC, t, z - 1, z', c);
    } else {
      SlicePlanesLength(images, sizeC, t, z - 1);
    }
  }

  /** Plane (t', z, c) sits at SliceIndex(t', z, c) among the planes of time points 0 .. t - 1. */
  lemma {:induction false} TimePlanesAt(images: map<(nat, nat), IcyImage>, sizeZ: nat, sizeC: nat,
                                        t: nat, t': nat, z: nat, c: nat)
    requires t' < t && z < sizeZ && c < sizeC
    ensures 0 <= SliceIndex(t', z, c, sizeZ, sizeC) < |TimePlanes(images, sizeZ, sizeC, t)|
    ensures TimePlanes(images, sizeZ, sizeC, t)[SliceIndex(t', z, c, sizeZ, sizeC)] == Data(images, t', z, c)
  {
    if t' < t - 1 {
      TimePlanesAt(images, sizeZ, sizeC, t - 1, t', z, c);
    } else {
      LastTimePlanesAt(images, sizeZ, sizeC, t', z, c);
    }
  }

  /** Plane (t, z, c) of the last time point sits at its slice index, past the earlier time points. */
  lemma LastTimePlanesAt(images: map<(nat, nat), IcyImage>, sizeZ: nat, sizeC: nat, t: nat, z: nat, c: nat)
    requires z < sizeZ && c < sizeC
    ensures 0 <= SliceIndex(t, z, c, sizeZ, sizeC) < |TimePlanes(images, sizeZ, sizeC, t + 1)|
    ensures TimePlanes(images, sizeZ, sizeC, t + 1)[SliceIndex(t, z, c, sizeZ, sizeC)] == Data(images, t, z, c)
  {
    var j: nat := c + sizeC * z;
    SlicePlanesAt(images, sizeC, t, sizeZ, z, c);
    TimePlanesLength(images, sizeZ, sizeC, t);
    SliceIndexSplit(t, z, c, sizeZ, sizeC);
    ConcatAt(TimePlanes(images, sizeZ, sizeC, t), SlicePlanes(images, sizeC, t, sizeZ), j);
  }

  /** Element j of the second part of a concatenation. */
  lemma ConcatAt<T>(a: seq<T>, b: seq<T>, j: nat)
    requires j < |b|
    ensures |a| + j < |a + b| && (a + b)[|a| + j] == b[j]
  {
  }

  /**
   * The innermost slice loop of convertToImageJImage: for each channel of
   * image (t, z), report progress at the current position and append
   * getDataXY(t, z, c) to the stack. The position is the stack's length.
   */
  method StackChannels(sequence: Sequence, t: nat, z: nat, listen: bool, len: int,
                       stack0: seq<Plane>, progress0: seq<(int, int)>)
    returns (stack: seq<Plane>, progress: seq<(int, int)>)
    requires HasSamples(sequence.images, sequence.sizeC, t, z)
    requires Reported(progress0, listen, |stack0|, len, true)
    ensures stack == stack0 + ChannelPlanes(sequence.images, t, z, sequence.sizeC)
    ensures Reported(progress, listen, |stack|, len, true)
  {
    stack := stack0;
    progress := progress0;
    var c := 0;
    while c < sequence.sizeC
      invariant 0 <= c <= sequence.sizeC
      invariant stack == stack0 + ChannelPlanes(sequence.images, t, z, c)
      invariant Reported(progress, listen, |stack|, len, true)
    {
      ReportedNext(progress, listen, |stack|, len, true, |stack|);
      progress := Notify(progress, listen, |stack|, len);
      stack := stack + [sequence.DataXY(t, z, c)];
      c := c + 1;
    }
  }

  /** The slice loop of convertToImageJImage over the Z slices of time point t. */
  method StackTimePoint(sequence: Sequence, t: nat, listen: bool, len: int,
                        stack0: seq<Plane>, progress0: seq<(int, int)>)
    returns (stack: seq<Plane>, progress: seq<(int, int)>)
    requires sequence.Complete() && t < sequence.sizeT
    requires Reported(progress0, listen, |stack0|, len, true)
    ensures stack == stack0 + SlicePlanes(sequence.images, sequence.sizeC, t, sequence.sizeZ)
    ensures Reported(progress, listen, |stack|, len, true)
  {
    stack := stack0;
    progress := progress0;
    var z := 0;
    while z < sequence.sizeZ
      invariant 0 <= z <= sequence.sizeZ
      invariant stack == stack0 + SlicePlanes(sequence.images, sequence.sizeC, t, z)
      invariant Reported(progress, listen, |stack|, len, true)
    {
      stack, progress := StackChannels(sequence, t, z, listen, len, stack, progress);
      z := z + 1;
    }
  }

  /**
   * The slice loops of convertToImageJImage: in nested t, z, c order,
   * report progress out of Z * T * C and append getDataXY(t, z, c) to the
   * stack.
   */
  method StackSlices(sequence: Sequence, listen: bool) returns (stack: seq<Plane>, progress: seq<(int, int)>)
    requires sequence.Complete()
    ensures stack == TimePlanes(sequence.images, sequence.sizeZ, sequence.sizeC, sequence.sizeT)
    ensures Reported(progress, listen, |stack|, |stack|, true)
  {
    var len := sequence.sizeZ * sequence.sizeT * sequence.sizeC;
    stack := [];
    progress := [];
    var t := 0;
    while t < sequence.sizeT
      invariant 0 <= t <= sequence.sizeT
      invariant stack == TimePlanes(sequence.images, sequence.sizeZ, sequence.sizeC, t)
      invariant Reported(progress, listen, |stack|, len, true)
    {
      stack, progress := StackTimePoint(sequence, t, listen, len, stack, progress);
      t := t + 1;
    }
    StackedLength(sequence.images, sequence.sizeT, sequence.sizeZ, sequence.sizeC);
  }

  /** The stack convertToImageJImage builds holds Z * T * C planes. */
  lemma StackedLength(images: map<(nat, nat), IcyImage>, sizeT: nat, sizeZ: nat, sizeC: nat)
    ensures |TimePlanes(images, sizeZ, sizeC, sizeT)| == sizeZ * sizeT * sizeC
    ensures |TimePlanes(images, sizeZ, sizeC, sizeT)| == sizeC * sizeZ * sizeT
  {
    TimePlanesLength(images, sizeZ, sizeC, sizeT);
    ProductOrders(sizeC, sizeZ, sizeT);
  }

  lemma ProductOrders(a: nat, b: nat, c: nat)
    ensures a * (b * c) == b * c * a && a * (b * c) == a * b * c
  {
  }

  /** The stack convertToImageJImage builds holds every plane at its slice index. */
  lemma StackedAll(images: map<(nat, nat), IcyImage>, sizeT: nat, sizeZ: nat, sizeC: nat)
    ensures forall t: nat, z: nat, c: nat :: t < sizeT && z < sizeZ && c < sizeC ==>
      && SliceIndex(t, z, c, sizeZ, sizeC) < |TimePlanes(images, sizeZ, sizeC, sizeT)|
      && TimePlanes(images, sizeZ, sizeC, sizeT)[SliceIndex(t, z, c, sizeZ, sizeC)] == Data(images, t, z, c)
  {
    forall t: nat, z: nat, c: nat | t < sizeT && z < sizeZ && c < sizeC {
      TimePlanesAt(images, sizeZ, sizeC, sizeT, t, z, c);
    }
  }

  /** The composite wrapping convertToImageJImage applies for C channels. */
  function CompositeFor(nChannels: nat): (mode: CompositeMode)
    ensures mode == NotComposite <==> nChannels <= 1
    ensures mode == ColorComposite <==> nChannels > 4
  {
    if nChannels > 4 then ColorComposite
    else if nChannels > 1 then Composite
    else NotComposite
  }

  /**
   * convertToImageJImage: an ImageJ hyperstack with the sequence's planes
   * at their (c, z, t) positions, its first 2D ROI, its calibration, and
   * a composite mode chosen from the channel count. The image type is the
   * one ImageJ infers from the sequence's sample arrays. ImageJ refuses an
   * empty stack, so every extent here is at least one.
   */
  method ConvertToImageJImage(sequence: Sequence, listen: bool, imageType: int)
    returns (result: ImagePlus, progress: seq<(int, int)>)
    requires sequence.Complete()
    requires sequence.sizeC >= 1 && sequence.sizeZ >= 1 && sequence.sizeT >= 1
    ensures fresh(result) && fresh(result.cal)
    ensures result.Valid()
    ensures result.title == sequence.name && result.width == sequence.sizeX && result.height == sequence.sizeY
    ensures result.imageType == imageType && !result.signed16
    ensures result.nChannels == sequence.sizeC && result.nSlices == sequence.sizeZ && result.nFrames == sequence.sizeT
    ensures forall t: nat, z: nat, c: nat :: t < sequence.sizeT && z < sequence.sizeZ && c < sequence.sizeC ==>
      result.PlaneAt(c + 1, z + 1, t + 1) == sequence.DataXY(t, z, c)
    ensures result.roi == if |sequence.rois| > 0 then Some(ExportedRoi(sequence.rois[0])) else None
    ensures PixelSizeSet(sequence) ==>
      && result.cal.pixelWidth == sequence.pixelSizeX
      && result.cal.pixelHeight == sequence.pixelSizeY
      && result.cal.pixelDepth == sequence.pixelSizeZ
      && result.cal.unit == "mm"
    ensures !PixelSizeSet(sequence) ==>
      && result.cal.pixelWidth == 1.0 && result.cal.pixelHeight == 1.0 && result.cal.pixelDepth == 1.0
      && result.cal.unit == "pixel"
    ensures sequence.timeInterval != 1.0 ==>
      result.cal.frameInterval == sequence.timeInterval && result.cal.timeUnit == "msec"
    ensures sequence.timeInterval == 1.0 ==> result.cal.frameInterval == 0.0 && result.cal.timeUnit == "sec"
    ensures result.openAsHyperStack == (result.NDimensions() > 3)
    ensures result.compositeMode == CompositeFor(sequence.sizeC)
    ensures Reported(progress, listen, |result.stack|, |result.stack|, true)
    ensures |result.stack| == sequence.sizeZ * sequence.sizeT * sequence.sizeC
  {
    result, progress := NewStackImage(sequence, listen, imageType);
    CalibrateImageJImage(result, sequence);
    result.MakeComposite(CompositeFor(result.nChannels));
    HyperstackPlanes(result, sequence);
  }

  /**
   * An image whose stack is the sequence's planes in t, z, c order, with
   * C channels, Z slices and T frames, shows plane (t, z, c) at the
   * 1-based position (c + 1, z + 1, t + 1).
   */
  lemma HyperstackPlanes(image: ImagePlus, sequence: Sequence)
    requires sequence.Complete() && image.Valid()
    requires image.stack == TimePlanes(sequence.images, sequence.sizeZ, sequence.sizeC, sequence.sizeT)
    requires image.nChannels == sequence.sizeC && image.nSlices == sequence.sizeZ && image.nFrames == sequence.sizeT
    ensures forall t: nat, z: nat, c: nat :: t < sequence.sizeT && z < sequence.sizeZ && c < sequence.sizeC ==>
      image.PlaneAt(c + 1, z + 1, t + 1) == sequence.DataXY(t, z, c)
  {
    StackPlanes(image.View(), sequence.images, sequence.sizeT, sequence.sizeZ, sequence.sizeC);
  }

  /** HyperstackPlanes on the value of the image and the sequence's planes. */
  lemma StackPlanes(v: Hyperstack, images: map<(nat, nat), IcyImage>, sizeT: nat, sizeZ: nat, sizeC: nat)
    requires v.Valid() && v.stack == TimePlanes(images, sizeZ, sizeC, sizeT)
    requires v.nChannels == sizeC && v.nSlices == sizeZ && v.nFrames == sizeT
    ensures forall t: nat, z: nat, c: nat :: t < sizeT && z < sizeZ && c < sizeC ==>
      v.PlaneAt(c + 1, z + 1, t + 1) == Data(images, t, z, c)
  {
    forall t: nat, z: nat, c: nat | t < sizeT && z < sizeZ && c < sizeC
      ensures v.PlaneAt(c + 1, z + 1, t + 1) == Data(images, t, z, c)
    {
      StackPlaneAt(v, images, sizeT, sizeZ, sizeC, t, z, c);
    }
  }

  /** StackPlanes for one (t, z, c). */
  lemma StackPlaneAt(v: Hyperstack, images: map<(nat, nat), IcyImage>, sizeT: nat, sizeZ: nat, sizeC: nat,
                     t: nat, z: nat, c: nat)
    requires v.Valid() && v.stack == TimePlanes(images, sizeZ, sizeC, sizeT)
    requires v.nChannels == sizeC && v.nSlices == sizeZ && v.nFrames == sizeT
    requires t < sizeT && z < sizeZ && c < sizeC
    ensures v.PlaneAt(c + 1, z + 1, t + 1) == Data(images, t, z, c)
  {
    TimePlanesAt(images, sizeZ, sizeC, sizeT, t, z, c);
    assert v.PlaneAt(c + 1, z + 1, t + 1) == v.stack[SliceIndex(t, z, c, sizeZ, sizeC)];
  }

  /**
   * The first half of convertToImageJImage: the stack of the sequence's
   * planes, the ImagePlus over it, and its first 2D ROI.
   */
  method NewStackImage(sequence: Sequence, listen: bool, imageType: int)
    returns (result: ImagePlus, progress: seq<(int, int)>)
    requires sequence.Complete()
    requires sequence.sizeC >= 1 && sequence.sizeZ >= 1 && sequence.sizeT >= 1
    ensures fresh(result) && fresh(result.cal)
    ensures result.Valid()
    ensures result.title == sequence.name && result.width == sequence.sizeX && result.height == sequence.sizeY
    ensures result.imageType == imageType && !result.signed16
    ensures result.stack == TimePlanes(sequence.images, sequence.sizeZ, sequence.sizeC, sequence.sizeT)
    ensures |result.stack| == sequence.sizeZ * sequence.sizeT * sequence.sizeC
    ensures |result.stack| == sequence.sizeC * sequence.sizeZ * sequence.sizeT
    ensures result.roi == if |sequence.rois| > 0 then Some(ExportedRoi(sequence.rois[0])) else None
    ensures result.cal.pixelWidth == 1.0 && result.cal.pixelHeight == 1.0 && result.cal.pixelDepth == 1.0
    ensures result.cal.frameInterval == 0.0 && result.cal.unit == "pixel" && result.cal.timeUnit == "sec"
    ensures Reported(progress, listen, |result.stack|, |result.stack|, true)
  {
    var stack;
    stack, progress := StackSlices(sequence, listen);
    StackedLength(sequence.images, sequence.sizeT, sequence.sizeZ, sequence.sizeC);
    MulPositive(sequence.sizeZ, sequence.sizeT, sequence.sizeC);
    result := new ImagePlus(sequence.name, sequence.sizeX, sequence.sizeY, stack, imageType);
    var rois := sequence.rois;
    if |rois| > 0 {
      var r := ConvertToImageJRoi(rois[0]);
      result.SetRoi(r);
    }
  }

  lemma MulPositive(a: nat, b: nat, c: nat)
    requires a >= 1 && b >= 1 && c >= 1
    ensures a * b * c >= 1
  {
    MulLeftMonotone(a, 1, b);
    MulLeftMonotone(a * b, 1, c);
  }

  // ---------------------------------------------------------------------
  // ImageJ image to Icy sequence

  /** A single-channel 256-colour or RGB image is read through a java.awt image. */
  predicate ThroughAwtImage(v: Hyperstack)
  {
    v.nChannels == 1 && (v.imageType == COLOR_256 || v.imageType == COLOR_RGB)
  }

  /**
   * Channel c of image (t, z) as convertToIcySequence stores it: the plane
   * at position (c + 1, z + 1, t + 1), shifted down by 32768 for signed
   * 16-bit data; for channels after the first, signed data go through
   * ArrayMath.subtract on the whole channel array instead.
   */
  function ImportedChannel(v: Hyperstack, t: nat, z: nat, c: nat): (d: ChannelData)
    requires v.Valid() && t < v.nFrames && z < v.nSlices && c < v.nChannels
    ensures d.Samples? <==> c == 0 || !v.signed16
    ensures !v.signed16 ==> d.values == v.PlaneAt(c + 1, z + 1, t + 1)
    ensures c == 0 && v.signed16 ==> |d.values| == |v.PlaneAt(1, z + 1, t + 1)|
  {
    if c == 0 then
      Samples(if v.signed16 then Subtract(v.PlaneAt(1, z + 1, t + 1), 32768) else v.PlaneAt(1, z + 1, t + 1))
    else if v.signed16 then WholeArraySubtracted(c)
    else Samples(v.PlaneAt(c + 1, z + 1, t + 1))
  }

  /** Channels 0 .. n - 1 of image (t, z), as convertToIcySequence stores them. */
  function ImportedChannels(v: Hyperstack, t: nat, z: nat, n: nat): (r: seq<ChannelData>)
    requires v.Valid() && t < v.nFrames && z < v.nSlices && n <= v.nChannels
    ensures |r| == n
    ensures forall c :: 0 <= c < n ==> r[c] == ImportedChannel(v, t, z, c)
  {
    if n == 0 then [] else ImportedChannels(v, t, z, n - 1) + [ImportedChannel(v, t, z, n - 1)]
  }

  /** The Icy image convertToIcySequence stores at (t, z). */
  function ImportedImage(v: Hyperstack, t: nat, z: nat): IcyImage
    requires v.Valid() && t < v.nFrames && z < v.nSlices
  {
    if ThroughAwtImage(v) then FromAwtImage(v.width, v.height, v.PlaneAt(1, z + 1, t + 1))
    else IcyImage(v.width, v.height, ImportedChannels(v, t, z, v.nChannels), v.signed16)
  }

  /**
   * Unsigned data read channel by channel come into Icy unchanged: every
   * channel of (t, z) holds the ImageJ plane at (c + 1, z + 1, t + 1).
   */
  lemma ImportKeepsPlanes(v: Hyperstack, t: nat, z: nat)
    requires v.Valid() && t < v.nFrames && z < v.nSlices
    requires !v.signed16 && !ThroughAwtImage(v)
    ensures HasSamples(map[(t, z) := ImportedImage(v, t, z)], v.nChannels, t, z)
    ensures forall c :: 0 <= c < v.nChannels ==>
      Data(map[(t, z) := ImportedImage(v, t, z)], t, z, c) == v.PlaneAt(c + 1, z + 1, t + 1)
  {
  }

  /**
   * Signed 16-bit data: the first channel is the ImageJ plane shifted
   * down by 32768, sample by sample, with each difference stored back in
   * 16 bits. For a sample held as a short (as a 16-bit image's are), the
   * stored value is its unsigned sample minus 32768.
   */
  lemma SignedFirstChannel(v: Hyperstack, t: nat, z: nat)
    requires v.Valid() && t < v.nFrames && z < v.nSlices
    requires v.signed16 && !ThroughAwtImage(v)
    ensures ImportedImage(v, t, z).channels[0].Samples?
    ensures var p := v.PlaneAt(1, z + 1, t + 1);
      var q := ImportedImage(v, t, z).channels[0].values;
      && |q| == |p|
      && (forall i :: 0 <= i < |p| ==> -32768 <= q[i] < 32768 && (q[i] - (p[i] - 32768)) % 65536 == 0)
      && (forall i :: 0 <= i < |p| && -32768 <= p[i] < 32768 ==> q[i] == Unsigned16(p[i]) - 32768)
  {
    var p := v.PlaneAt(1, z + 1, t + 1);
    forall i | 0 <= i < |p| && -32768 <= p[i] < 32768
      ensures Subtract(p, 32768)[i] == Unsigned16(p[i]) - 32768
    {
      SignedSample(p[i]);
    }
  }

  /**
   * The channel loop of convertToIcySequence for image (t, z): the data
   * array holds the first plane and then each further channel's plane,
   * moving the image's position to each channel in turn.
   */
  method ReadChannels(image: ImagePlus, t: nat, z: nat) returns (datas: seq<ChannelData>)
    requires image.Valid() && t < image.nFrames && z < image.nSlices
    requires image.channel == 1 && image.slice == z + 1 && image.frame == t + 1
    modifies image`channel, image`slice, image`frame
    ensures datas == ImportedChannels(image.View(), t, z, image.nChannels)
    ensures image.PositionInRange()
  {
    var sizeC := image.nChannels;
    ghost var v := image.View();
    var planes := new ChannelData[sizeC];
    var data := image.Pixels();
    assert data == v.PlaneAt(1, z + 1, t + 1);
    planes[0] := if image.signed16 then Samples(Subtract(data, 32768)) else Samples(data);
    var c := 1;
    while c < sizeC
      invariant 1 <= c <= sizeC
      invariant image.View() == v && image.PositionInRange()
      invariant forall k :: 0 <= k < c ==> planes[k] == ImportedChannel(v, t, z, k)
    {
      planes[c] := ReadChannel(image, t, z, c, v);
      c := c + 1;
    }
    assert planes[..] == ImportedChannels(v, t, z, sizeC);
    datas := planes[..];
  }

  /**
   * One pass of the channel loop: move the position to channel c + 1 and
   * read its plane, or mark it as subtracted on the whole array for
   * signed data.
   */
  method ReadChannel(image: ImagePlus, t: nat, z: nat, c: nat, ghost v: Hyperstack) returns (d: ChannelData)
    requires v == image.View() && v.Valid() && t < v.nFrames && z < v.nSlices && 1 <= c < v.nChannels
    modifies image`channel, image`slice, image`frame
    ensures d == ImportedChannel(v, t, z, c)
    ensures image.channel == c + 1 && image.slice == z + 1 && image.frame == t + 1
  {
    image.SetPosition(c + 1, z + 1, t + 1);
    d := if image.signed16 then WholeArraySubtracted(c) else Samples(image.Pixels());
  }

  /** The body of the slice loop of convertToIcySequence: the Icy image of (t, z). */
  method ReadImage(image: ImagePlus, t: nat, z: nat) returns (icy: IcyImage)
    requires image.Valid() && t < image.nFrames && z < image.nSlices
    modifies image`channel, image`slice, image`frame
    ensures icy == ImportedImage(image.View(), t, z)
    ensures image.PositionInRange()
  {
    image.SetPosition(1, z + 1, t + 1);
    if image.nChannels == 1 && (image.imageType == COLOR_256 || image.imageType == COLOR_RGB) {
      icy := FromAwtImage(image.width, image.height, image.Pixels());
    } else {
      var datas := ReadChannels(image, t, z);
      icy := IcyImage(image.width, image.height, datas, image.signed16);
    }
  }

  /**
   * The images of a sequence being filled are exactly the (t', z') that
   * come before (t, z) in t-then-z order, each as convertToIcySequence
   * stores it.
   */
  ghost predicate ImportedBefore(images: map<(nat, nat), IcyImage>, v: Hyperstack, t: nat, z: nat)
    requires v.Valid()
  {
    && (forall t': nat, z': nat :: (t', z') in images <==> (t' < t && z' < v.nSlices) || (t' == t && z' < z))
    && (forall t': nat, z': nat :: (t', z') in images && t' < v.nFrames && z' < v.nSlices ==>
          images[(t', z')] == ImportedImage(v, t', z'))
  }

  /**
   * Read the Icy image of (t, z) and store it in the sequence, which then
   * holds the images up to and including (t, z).
   */
  method ImportSlice(image: ImagePlus, result: Sequence, t: nat, z: nat, ghost v: Hyperstack)
    requires v == image.View() && v.Valid() && t < v.nFrames && z < v.nSlices
    requires result.images == ImportedImages(v, t, z)
    modifies image`channel, image`slice, image`frame
    modifies result`images, result`sizeT, result`sizeZ, result`sizeX, result`sizeY, result`sizeC
    ensures result.images == ImportedImages(v, t, z + 1)
    ensures result.sizeT == if t + 1 > old(result.sizeT) then t + 1 else old(result.sizeT)
    ensures result.sizeZ == if z + 1 > old(result.sizeZ) then z + 1 else old(result.sizeZ)
    ensures result.sizeX == v.width && result.sizeY == v.height
    ensures result.sizeC == if ThroughAwtImage(v) then old(result.sizeC) else v.nChannels
    ensures image.PositionInRange()
  {
    var icy := ReadImage(image, t, z);
    result.SetImage(t, z, icy);
  }

  /**
   * The images convertToIcySequence has stored once it reaches (t, z):
   * those of every (t', z') before it in t-then-z order.
   */
  function ImportedImages(v: Hyperstack, t: nat, z: nat): map<(nat, nat), IcyImage>
    requires v.Valid() && t <= v.nFrames && z <= v.nSlices && (t == v.nFrames ==> z == 0)
    decreases t, z
  {
    if z > 0 then ImportedImages(v, t, z - 1)[(t, z - 1) := ImportedImage(v, t, z - 1)]
    else if t > 0 then ImportedImages(v, t - 1, v.nSlices)
    else map[]
  }

  /** The stored images are exactly those before (t, z), each as ImportedImage gives it. */
  lemma {:induction false} ImportedImagesBefore(v: Hyperstack, t: nat, z: nat)
    requires v.Valid() && t <= v.nFrames && z <= v.nSlices && (t == v.nFrames ==> z == 0)
    ensures ImportedBefore(ImportedImages(v, t, z), v, t, z)
    decreases t, z
  {
    if z > 0 {
      ImportedImagesBefore(v, t, z - 1);
    } else if t > 0 {
      ImportedImagesBefore(v, t - 1, v.nSlices);
    }
  }

  /**
   * One pass of the slice loop of convertToIcySequence: report progress,
   * store the Icy image of (t, z), and advance the position when the
   * image was read channel by channel.
   */
  method ImportStep(image: ImagePlus, result: Sequence, t: nat, z: nat, listen: bool, len: int,
                    position0: int, progress0: seq<(int, int)>, ghost count0: nat, ghost v: Hyperstack)
    returns (position: int, progress: seq<(int, int)>)
    requires v == image.View() && v.Valid() && t < v.nFrames && z < v.nSlices
    requires result.images == ImportedImages(v, t, z)
    requires position0 == (if ThroughAwtImage(v) then 0 else count0)
    requires Reported(progress0, listen, count0, len, !ThroughAwtImage(v))
    modifies image`channel, image`slice, image`frame
    modifies result`images, result`sizeT, result`sizeZ, result`sizeX, result`sizeY, result`sizeC
    ensures result.images == ImportedImages(v, t, z + 1)
    ensures result.sizeT == if t + 1 > old(result.sizeT) then t + 1 else old(result.sizeT)
    ensures result.sizeZ == if z + 1 > old(result.sizeZ) then z + 1 else old(result.sizeZ)
    ensures result.sizeX == v.width && result.sizeY == v.height
    ensures result.sizeC == if ThroughAwtImage(v) then old(result.sizeC) else v.nChannels
    ensures position == (if ThroughAwtImage(v) then 0 else count0 + 1)
    ensures Reported(progress, listen, count0 + 1, len, !ThroughAwtImage(v))
    ensures image.PositionInRange()
  {
    ReportedNext(progress0, listen, count0, len, !ThroughAwtImage(v), position0);
    progress := Notify(progress0, listen, position0, len);
    ImportSlice(image, result, t, z, v);
    position := position0;
    if !(image.nChannels == 1 && (image.imageType == COLOR_256 || image.imageType == COLOR_RGB)) {
      position := position + 1;
    }
  }

  /**
   * The slice loop of convertToIcySequence over time point t: report
   * progress, store the Icy image of each (t, z), and count the images
   * read channel by channel.
   */
  method ImportTimePoint(image: ImagePlus, result: Sequence, t: nat, listen: bool, len: int,
                         position0: int, progress0: seq<(int, int)>, ghost count0: nat, ghost v: Hyperstack)
    returns (position: int, progress: seq<(int, int)>, ghost count: nat)
    requires v == image.View() && v.Valid() && t < v.nFrames
    requires result.images == ImportedImages(v, t, 0)
    requires result.sizeT == t && result.sizeZ == (if t == 0 then 0 else v.nSlices)
    requires t > 0 ==> result.sizeX == v.width && result.sizeY == v.height
    requires t > 0 && !ThroughAwtImage(v) ==> result.sizeC == v.nChannels
    requires position0 == (if ThroughAwtImage(v) then 0 else count0)
    requires Reported(progress0, listen, count0, len, !ThroughAwtImage(v))
    modifies image`channel, image`slice, image`frame
    modifies result`images, result`sizeT, result`sizeZ, result`sizeX, result`sizeY, result`sizeC
    ensures result.images == ImportedImages(v, t + 1, 0)
    ensures result.sizeT == t + 1 && result.sizeZ == v.nSlices
    ensures result.sizeX == v.width && result.sizeY == v.height
    ensures !ThroughAwtImage(v) ==> result.sizeC == v.nChannels
    ensures count == count0 + v.nSlices
    ensures position == (if ThroughAwtImage(v) then 0 else count)
    ensures Reported(progress, listen, count, len, !ThroughAwtImage(v))
  {
    position, progress, count := position0, progress0, count0;
    var awt := image.nChannels == 1 && (image.imageType == COLOR_256 || image.imageType == COLOR_RGB);
    var z := 0;
    while z < image.nSlices
      invariant 0 <= z <= v.nSlices
      invariant image.View() == v && awt == ThroughAwtImage(v)
      invariant result.images == ImportedImages(v, t, z)
      invariant result.sizeT == (if z == 0 then t else t + 1)
      invariant result.sizeZ == (if t == 0 then z else v.nSlices)
      invariant t > 0 || z > 0 ==> result.sizeX == v.width && result.sizeY == v.height
      invariant (t > 0 || z > 0) && !awt ==> result.sizeC == v.nChannels
      invariant count == count0 + z
      invariant position == (if awt then 0 else count)
      invariant Reported(progress, listen, count, len, !awt)
    {
      position, progress := ImportStep(image, result, t, z, listen, len, position, progress, count, v);
      count := count + 1;
      z := z + 1;
    }
  }

  /**
   * The time loop of convertToIcySequence: every (t, z) of the image
   * stored in the new sequence, with progress out of Z * T.
   */
  method ImportImages(image: ImagePlus, result: Sequence, listen: bool, ghost v: Hyperstack)
    returns (progress: seq<(int, int)>)
    requires v == image.View() && v.Valid()
    requires result.images == map[] && result.sizeT == 0 && result.sizeZ == 0
    modifies image`channel, image`slice, image`frame
    modifies result`images, result`sizeT, result`sizeZ, result`sizeX, result`sizeY, result`sizeC
    ensures result.images == ImportedImages(v, v.nFrames, 0)
    ensures result.sizeT == v.nFrames && result.sizeZ == v.nSlices
    ensures result.sizeX == v.width && result.sizeY == v.height
    ensures !ThroughAwtImage(v) ==> result.sizeC == v.nChannels
    ensures Reported(progress, listen, v.nSlices * v.nFrames, v.nSlices * v.nFrames, !ThroughAwtImage(v))
  {
    var sizeZ := image.nSlices;
    var sizeT := image.nFrames;
    var len := sizeZ * sizeT;
    var position := 0;
    ghost var count: nat := 0;
    progress := [];
    var t := 0;
    while t < sizeT
      invariant 0 <= t <= sizeT
      invariant image.View() == v
      invariant result.images == ImportedImages(v, t, 0)
      invariant result.sizeT == t && result.sizeZ == (if t == 0 then 0 else sizeZ)
      invariant t > 0 ==> result.sizeX == v.width && result.sizeY == v.height
      invariant t > 0 && !ThroughAwtImage(v) ==> result.sizeC == v.nChannels
      invariant count == sizeZ * t
      invariant position == (if ThroughAwtImage(v) then 0 else count)
      invariant Reported(progress, listen, count, len, !ThroughAwtImage(v))
    {
      position, progress, count := ImportTimePoint(image, result, t, listen, len, position, progress, count, v);
      MulStep(sizeZ, t);
      t := t + 1;
    }
  }

  /** The ROI loop of convertToIcySequence: addROI for each converted ROI, in order. */
  method AddRois(result: Sequence, rs: seq<Roi2D>)
    modifies result`rois
    ensures result.rois == old(result.rois) + rs
  {
    var i := 0;
    while i < |rs|
      invariant 0 <= i <= |rs|
      invariant result.rois == old(result.rois) + rs[..i]
    {
      result.AddRoi(rs[i]);
      assert rs[..i + 1] == rs[..i] + [rs[i]];
      i := i + 1;
    }
  }

  /** The ROI step of convertToIcySequence: the image's ROI, if any, as Icy ROIs. */
  method ImportRoi(result: Sequence, roi: Option<ImageJ.Roi>)
    modifies result`rois
    ensures result.rois == old(result.rois) + if roi.Some? then ImportedRois(roi.value) else []
  {
    if roi.Some? {
      var rs := ConvertToIcyRoi(roi.value);
      AddRois(result, rs);
    }
  }

  /**
   * convertToIcySequence: a new sequence named after the image, holding
   * the Icy image of every (t, z), the image's ROI as Icy ROIs, and the
   * image's calibration; changes are grouped in one update.
   */
  method ConvertToIcySequence(image: ImagePlus, listen: bool) returns (result: Sequence, progress: seq<(int, int)>)
    requires image.Valid()
    modifies image`channel, image`slice, image`frame
    ensures fresh(result)
    ensures result.name == image.title
    ensures result.images == ImportedImages(image.View(), image.nFrames, 0)
    ensures result.sizeX == image.width && result.sizeY == image.height
    ensures result.sizeZ == image.nSlices && result.sizeT == image.nFrames
    ensures !ThroughAwtImage(image.View()) ==> result.sizeC == image.nChannels
    ensures result.rois == if image.roi.Some? then ImportedRois(image.roi.value) else []
    ensures image.cal.Scaled() ==>
      && result.pixelSizeX == image.cal.pixelWidth
      && result.pixelSizeY == image.cal.pixelHeight
      && result.pixelSizeZ == image.cal.pixelDepth
    ensures !image.cal.Scaled() ==> result.pixelSizeX == 1.0 && result.pixelSizeY == 1.0 && result.pixelSizeZ == 1.0
    ensures result.timeInterval == image.cal.frameInterval
    ensures result.updateLevel == 0
    ensures Reported(progress, listen, image.nSlices * image.nFrames, image.nSlices * image.nFrames,
                     !ThroughAwtImage(image.View()))
  {
    result, progress := ImportedSequence(image, listen);
    ImportRoi(result, image.roi);
    CalibrateIcySequence(result, image.cal);
    result.EndUpdate();
  }

  /**
   * The first half of convertToIcySequence: a new sequence, in an update,
   * holding the Icy image of every (t, z) of the image.
   */
  method ImportedSequence(image: ImagePlus, listen: bool) returns (result: Sequence, progress: seq<(int, int)>)
    requires image.Valid()
    modifies image`channel, image`slice, image`frame
    ensures fresh(result)
    ensures result.name == image.title
    ensures result.images == ImportedImages(image.View(), image.nFrames, 0)
    ensures result.sizeX == image.width && result.sizeY == image.height
    ensures result.sizeZ == image.nSlices && result.sizeT == image.nFrames
    ensures !ThroughAwtImage(image.View()) ==> result.sizeC == image.nChannels
    ensures result.rois == []
    ensures result.pixelSizeX == 1.0 && result.pixelSizeY == 1.0 && result.pixelSizeZ == 1.0
    ensures result.updateLevel == 1
    ensures Reported(progress, listen, image.nSlices * image.nFrames, image.nSlices * image.nFrames,
                     !ThroughAwtImage(image.View()))
  {
    ghost var v := image.View();
    result := new Sequence(image.title);
    result.BeginUpdate();
    progress := ImportImages(image, result, listen, v);
  }

  // Round trips

  /**
   * Unsigned data read channel by channel: after convertToIcySequence
   * every (t, z) holds sample planes, channel c being the ImageJ plane at
   * (c + 1, z + 1, t + 1).
   */
  lemma ImportedData(v: Hyperstack, t: nat, z: nat, c: nat)
    requires v.Valid() && !v.signed16 && !ThroughAwtImage(v)
    requires t < v.nFrames && z < v.nSlices && c < v.nChannels
    ensures HasSamples(ImportedImages(v, v.nFrames, 0), v.nChannels, t, z)
    ensures Data(ImportedImages(v, v.nFrames, 0), t, z, c) == v.PlaneAt(c + 1, z + 1, t + 1)
  {
    ImportedImagesBefore(v, v.nFrames, 0);
    var images := ImportedImages(v, v.nFrames, 0);
    assert (t, z) in images;
    assert images[(t, z)] == ImportedImage(v, t, z);
    ImportKeepsPlanes(v, t, z);
  }

  /** The sequence convertToIcySequence builds from unsigned data can be converted back. */
  lemma ImportedFilled(v: Hyperstack)
    requires v.Valid() && !v.signed16 && !ThroughAwtImage(v)
    ensures Filled(ImportedImages(v, v.nFrames, 0), v.nFrames, v.nSlices, v.nChannels)
  {
    forall t: nat, z: nat | t < v.nFrames && z < v.nSlices
      ensures HasSamples(ImportedImages(v, v.nFrames, 0), v.nChannels, t, z)
    {
      ImportedData(v, t, z, 0);
    }
  }

  /**
   * An ImageJ image showing the planes of an Icy sequence, unsigned and
   * not read through a java.awt image, comes back as the same planes.
   */
  lemma ExportImportData(w: Hyperstack, images: map<(nat, nat), IcyImage>, sizeT: nat, sizeZ: nat, sizeC: nat)
    requires w.Valid() && !w.signed16 && !ThroughAwtImage(w)
    requires w.nChannels == sizeC && w.nSlices == sizeZ && w.nFrames == sizeT
    requires forall t: nat, z: nat, c: nat :: t < sizeT && z < sizeZ && c < sizeC ==>
      w.PlaneAt(c + 1, z + 1, t + 1) == Data(images, t, z, c)
    ensures forall t: nat, z: nat, c: nat :: t < sizeT && z < sizeZ && c < sizeC ==>
      Data(ImportedImages(w, sizeT, 0), t, z, c) == Data(images, t, z, c)
  {
    forall t: nat, z: nat, c: nat | t < sizeT && z < sizeZ && c < sizeC
      ensures Data(ImportedImages(w, sizeT, 0), t, z, c) == Data(images, t, z, c)
    {
      ImportedData(w, t, z, c);
    }
  }

  /**
   * convertToImageJImage then convertToIcySequence: unless the ImageJ
   * image is a single-channel RGB or indexed-colour image, the sequence
   * comes back with its extent and every plane unchanged.
   */
  method IcyRoundTrip(sequence: Sequence, imageType: int) returns (back: Sequence)
    requires sequence.Complete()
    requires sequence.sizeC >= 1 && sequence.sizeZ >= 1 && sequence.sizeT >= 1
    requires sequence.sizeC > 1 || (imageType != COLOR_256 && imageType != COLOR_RGB)
    ensures back.sizeX == sequence.sizeX && back.sizeY == sequence.sizeY
    ensures back.sizeC == sequence.sizeC && back.sizeZ == sequence.sizeZ && back.sizeT == sequence.sizeT
    ensures back.Complete()
    ensures forall t: nat, z: nat, c: nat :: t < sequence.sizeT && z < sequence.sizeZ && c < sequence.sizeC ==>
      Data(back.images, t, z, c) == Data(sequence.images, t, z, c)
  {
    var image, progress := ConvertToImageJImage(sequence, false, imageType);
    ghost var w := image.View();
    forall t: nat, z: nat, c: nat | t < sequence.sizeT && z < sequence.sizeZ && c < sequence.sizeC
      ensures w.PlaneAt(c + 1, z + 1, t + 1) == Data(sequence.images, t, z, c)
    {
      assert image.PlaneAt(c + 1, z + 1, t + 1) == sequence.DataXY(t, z, c);
    }
    ExportImportData(w, sequence.images, sequence.sizeT, sequence.sizeZ, sequence.sizeC);
    ImportedFilled(w);
    back, progress := ConvertToIcySequence(image, false);
  }

  /**
   * An ImageJ image showing the planes convertToIcySequence stored for
   * an unsigned image not read through a java.awt image shows the
   * original image's planes.
   */
  lemma ImportExportPlanes(v: Hyperstack, w: Hyperstack)
    requires v.Valid() && !v.signed16 && !ThroughAwtImage(v)
    requires w.Valid() && w.nChannels == v.nChannels && w.nSlices == v.nSlices && w.nFrames == v.nFrames
    requires forall t: nat, z: nat, c: nat :: t < v.nFrames && z < v.nSlices && c < v.nChannels ==>
      w.PlaneAt(c + 1, z + 1, t + 1) == Data(ImportedImages(v, v.nFrames, 0), t, z, c)
    ensures forall c, z, t :: 1 <= c <= v.nChannels && 1 <= z <= v.nSlices && 1 <= t <= v.nFrames ==>
      w.PlaneAt(c, z, t) == v.PlaneAt(c, z, t)
  {
    forall c, z, t | 1 <= c <= v.nChannels && 1 <= z <= v.nSlices && 1 <= t <= v.nFrames
      ensures w.PlaneAt(c, z, t) == v.PlaneAt(c, z, t)
    {
      ImportedData(v, t - 1, z - 1, c - 1);
    }
  }

  /**
   * convertToIcySequence then convertToImageJImage: an unsigned image not
   * read through a java.awt image comes back with its dimensions and the
   * plane at every (c, z, t) unchanged.
   */
  method ImageJRoundTrip(image: ImagePlus) returns (back: ImagePlus)
    requires image.Valid() && !image.signed16 && !ThroughAwtImage(image.View())
    modifies image`channel, image`slice, image`frame
    ensures back.Valid()
    ensures back.width == image.width && back.height == image.height && back.imageType == image.imageType
    ensures back.nChannels == image.nChannels && back.nSlices == image.nSlices && back.nFrames == image.nFrames
    ensures forall c, z, t :: 1 <= c <= image.nChannels && 1 <= z <= image.nSlices && 1 <= t <= image.nFrames ==>
      back.PlaneAt(c, z, t) == image.PlaneAt(c, z, t)
  {
    ghost var v := image.View();
    var sequence, progress := ConvertToIcySequence(image, false);
    ImportedFilled(v);
    back, progress := ConvertToImageJImage(sequence, false, image.imageType);
    ghost var w := back.View();
    forall t: nat, z: nat, c: nat | t < v.nFrames && z < v.nSlices && c < v.nChannels
      ensures w.PlaneAt(c + 1, z + 1, t + 1) == Data(ImportedImages(v, v.nFrames, 0), t, z, c)
    {
      assert back.PlaneAt(c + 1, z + 1, t + 1) == sequence.DataXY(t, z, c);
    }
    ImportExportPlanes(v, w);
  }
}

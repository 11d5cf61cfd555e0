# Icy kernel: ImageJ interop, file formats and desktop arrangement

This project models three parts of the Icy kernel in Dafny and proves
properties of the model.

- **`ImageJUtil`** (`imagej_util.dfy`) converts between Icy and ImageJ:
  - an Icy `Sequence` (planes indexed by (t, z, c)) becomes an ImageJ
    `ImagePlus`. The model builds the stack in nested t, z, c order,
    reports progress, copies the first 2D ROI, writes the calibration,
    sets the (C, Z, T) dimensions and picks a composite mode;
  - an `ImagePlus` becomes a `Sequence`. The model reads one Icy image per
    (t, z) channel by channel, or through a java.awt image for
    single-channel RGB and indexed-colour images, shifts signed 16-bit
    samples by 32768, adds the converted ROIs and copies the calibration;
  - an ImageJ `Roi` becomes a list of Icy `ROI2D`s, and an Icy `ROI2D`
    becomes an ImageJ `Roi`.
- **`FileFormats`** (`file_format.dfy`) is the `FileFormat` enumeration:
  - each constant has its extension list;
  - `matches` compares exactly;
  - `getFileFormat` finds the first match in declaration order.
- **`DesktopPane`** (`desktop_pane.dfy`) is the non-graphical part of
  `IcyDesktopPane`:
  - the duplicate-free overlay list;
  - the `fixPosition` clamp;
  - the cascade stepping of `organizeCascade`;
  - the grid sizing and cell placement of `organizeTile`.

The library objects these conversions touch have small models of their
own:
- `imagej.dfy` holds `ImagePlus`, `Calibration` and the `Roi` classes;
- `icy.dfy` holds `Sequence`, `IcyBufferedImage` and the `ROI2D` classes;
- `pixels.dfy` holds pixel planes and the stack index arithmetic;
- `awt.dfy` holds points, rectangles, colours, shapes and masks;
- `wrappers.dfy` holds `Option`.

Code that changes state is written as classes with methods, loops and
invariants. Each method is proved against a specification function:
- `TimePlanes` for the exported stack;
- `ImportedImages` for the imported images;
- `ImportedRois` and `ExportedRoi` for the ROIs;
- `ArrangedIndices`, `CascadeBounds` and `TileCell` for the desktop.

Lemmas then state what the source promises about those functions. The
lookups of `FileFormat` are recursive functions.

Several pieces of ImageJ and Icy behaviour are assumed, not taken from the
repository; the model states each one:
- **ImageJ defaults:**
  - a new calibration has pixel sizes 1, frame interval 0, unit "pixel" and
    time unit "sec";
  - `scaled()` means some pixel size differs from 1 or the unit is not
    "pixel";
  - `setUnit("")` and `setTimeUnit("")` fall back to those defaults.
- **ImageJ image behaviour:**
  - `setDimensions` keeps (1, stack size, 1) when C·Z·T is not the stack
    size;
  - `setPosition` clamps each coordinate into range;
  - `getNDimensions()` counts 2 plus one for each of C, Z and T above 1;
  - a new `ImagePlus` over a stack has one channel, one frame and as many
    slices as planes.
- **ImageJ ROIs:**
  - `getFloatBounds` of a line is the box its end points span;
  - a `PointRoi` is a polygon ROI of type POINT;
  - an `ImageRoi` reports the rectangle type.
- **Icy `Sequence`:**
  - `setImage(t, z, image)` grows the T and Z extent to hold (t, z);
  - it takes the X and Y size of the image;
  - it takes the channel count of the image when the image was built from
    channel data.

## Model

| member | source | states |
|---|---|---|
| `FileFormats.Ordinal` | icy/file/FileFormat.java:11-82 | each constant sits at its position in the declaration order TIFF, PNG, LSM, JPG, AVI that `values()` lists |
| `FileFormats.Extensions` | icy/file/FileFormat.java:13-82 | each constant's `getExtensions()` list is non-empty, and every extension starts with a lower-case letter, with no leading dot |
| `FileFormats.MatchesAny` | icy/file/FileFormat.java:111-115 | the early-return scan is true exactly when the extension equals one of the list's entries |
| `FileFormats.Matches` | icy/file/FileFormat.java:109-116 | `matches(ext)` holds exactly when `ext` is, character for character, one of the format's extensions |
| `FileFormats.FirstMatch` | icy/file/FileFormat.java:124-128 | the scan returns the first format in list order that matches; it returns the default when none matches; anything other than the default is a matching member of the list |
| `FileFormats.FirstMatchFindsOwner` | icy/file/FileFormat.java:122-129 | the scan over `values()` returns the format an extension belongs to, whatever the default and wherever that format is declared |
| `FileFormats.GetFileFormatOr` | icy/file/FileFormat.java:122-129 | `getFileFormat(ext, d)` is `d` when no format matches; when a format matches, the result is that format, whatever `d` is |
| `FileFormats.GetFileFormat` | icy/file/FileFormat.java:135-138 | `getFileFormat(ext)` is null exactly when no format matches, and otherwise a format matching `ext` |
| `FileFormats.ExtensionsDisjoint` | icy/file/FileFormat.java:13-82 | no extension belongs to two different formats |
| `FileFormats.LookupIff` | icy/file/FileFormat.java:135-138 | with a null default, the lookup gives `f` exactly when `f` matches the extension |
| `FileFormats.AlternativeSpellings` | icy/file/FileFormat.java:13-67 | "tif" and "tiff" both give TIFF; "jpg" and "jpeg" both give JPG |
| `FileFormats.NotAnExtension` | icy/file/FileFormat.java:13-82 | every extension starts with a lower-case letter, so a string starting otherwise matches no format |
| `FileFormats.NoCaseFolding` | icy/file/FileFormat.java:109-116 | the comparison is exact: "TIF" and ".tif" give null |
| `DesktopPane.ArrangedIndices` | icy/gui/main/IcyDesktopPane.java:292-295 | the selected indices are in range and strictly increasing, so the filter keeps pane order |
| `DesktopPane.ArrangedIndicesExact` | icy/gui/main/IcyDesktopPane.java:333-336 | a frame is selected exactly when it is not iconified, resizable and visible |
| `DesktopPane.SelectFrames` | icy/gui/main/IcyDesktopPane.java:289-295 | the collecting loop yields exactly the arranged frames, in pane order |
| `DesktopPane.RemoveFirst` | icy/gui/main/IcyDesktopPane.java:432 | `ArrayList.remove(Object)` leaves a list without the element unchanged, and otherwise makes it one shorter |
| `DesktopPane.RemoveFirstSplits` | icy/gui/main/IcyDesktopPane.java:432 | the removal cuts out exactly the first occurrence and keeps the others in order |
| `DesktopPane.RemoveFirstFromSet` | icy/gui/main/IcyDesktopPane.java:430-433 | on a duplicate-free list the removal keeps the list duplicate-free, leaves no trace of the element and keeps every other element |
| `DesktopPane.IcyDesktopPane.constructor` | icy/gui/main/IcyDesktopPane.java:187-232 | a new pane holds only its background overlay |
| `DesktopPane.IcyDesktopPane.AddOverlay` | icy/gui/main/IcyDesktopPane.java:421-425 | the overlay is appended only when absent, so the list stays duplicate-free and keeps paint order |
| `DesktopPane.IcyDesktopPane.RemoveOverlay` | icy/gui/main/IcyDesktopPane.java:430-433 | the result is true exactly when the overlay was present; the overlay is gone afterwards; the others stay, in order |
| `DesktopPane.IcyDesktopPane.FixPosition` | icy/gui/main/IcyDesktopPane.java:271-281 | the result is true exactly when `rect.y` was above the pane's top edge; afterwards `rect.y` is at or below the edge; x, width and height are unchanged |
| `DesktopPane.CascadeCoord` | icy/gui/main/IcyDesktopPane.java:307-319 | the cascade's x (or y) starts at 32 and advances by the step, back to 32 when the frame would pass the limit; each coordinate is at least 32, and stays where the frame fits unless it is back at 32 |
| `DesktopPane.CascadeBounds` | icy/gui/main/IcyDesktopPane.java:307-319 | the k-th cascaded frame keeps size (fw, fh), and each corner coordinate is at least 32 and keeps the frame inside the pane unless it is back at 32 |
| `DesktopPane.CascadeStep` | icy/gui/main/IcyDesktopPane.java:310-319 | one iteration of the cascade loop places the next selected frame and leaves the rest as they were |
| `DesktopPane.IcyDesktopPane.OrganizeCascade` | icy/gui/main/IcyDesktopPane.java:286-320 | the k-th arranged frame gets size (fw, fh) at the k-th cascade position (steps of 30 and 20, reset to 32); every other frame is unchanged |
| `DesktopPane.ISqrt` | icy/gui/main/IcyDesktopPane.java:364 | `(int) Math.sqrt(n)` is the largest r with r·r ≤ n |
| `DesktopPane.LinesFor` | icy/gui/main/IcyDesktopPane.java:367-369 | the rounded-up line count gives enough cells and no empty last line |
| `DesktopPane.TileLayout` | icy/gui/main/IcyDesktopPane.java:351-371 | every layout (horizontal 1 × n, vertical n × 1, grid) has at least one column and one line, enough cells for all frames, and no empty line |
| `DesktopPane.GridLayoutNearSquare` | icy/gui/main/IcyDesktopPane.java:363-370 | the grid takes the smallest column count whose square holds all frames, with no more lines than columns |
| `DesktopPane.JavaDiv` | icy/gui/main/IcyDesktopPane.java:375-376 | Java's `/` on ints truncates toward zero: the quotient's multiple lies within one divisor of the dividend, on the dividend's side of 0 |
| `DesktopPane.DivBelow` | icy/gui/main/IcyDesktopPane.java:367 | n ≤ c·m gives n / c ≤ m, which bounds the grid's line count |
| `DesktopPane.LastIndexOf` | icy/gui/main/IcyDesktopPane.java:397-406 | the last cell assigned to a frame is the one whose `setBounds` stays |
| `DesktopPane.CellNumber` | icy/gui/main/IcyDesktopPane.java:397-401 | the running counter k at line i and column j is i·numCol + j, so it gives back column j and line i |
| `DesktopPane.GridCellAt` | icy/gui/main/IcyDesktopPane.java:404 | cell number i·numCol + j has bounds (j·dx, i·dy, dx, dy) |
| `DesktopPane.PlaceStep` | icy/gui/main/IcyDesktopPane.java:402-404 | one placement step moves frame `framePos[k]` to cell k when it names a frame, and changes nothing otherwise |
| `DesktopPane.PlaceTiles` | icy/gui/main/IcyDesktopPane.java:397-406 | after the nested placement loops, each selected frame holds the last cell assigned to it, or its old bounds |
| `DesktopPane.IcyDesktopPane.OrganizeTile` | icy/gui/main/IcyDesktopPane.java:329-407 | with no eligible frame nothing changes; otherwise each arranged frame holds the layout cell last assigned to it by `framePos`, or its old bounds; other frames are unchanged |
| `Pixels.ToShort` | icy/imagej/ImageJUtil.java:155 | a (short) narrowing gives the value in -32768 .. 32767 congruent to its argument modulo 65536 |
| `Pixels.Unsigned16` | icy/imagej/ImageJUtil.java:152-155 | the unsigned 16-bit sample a short holds is in 0 .. 65535 and congruent to it modulo 65536 |
| `Pixels.Subtract` | icy/imagej/ImageJUtil.java:155 | `ArrayMath.subtract` on a short[] plane keeps the length; each sample becomes the difference narrowed back to a short |
| `Pixels.SignedSample` | icy/imagej/ImageJUtil.java:152-155 | subtracting 32768 from a short, with the 16-bit wrap, gives its unsigned sample minus 32768 |
| `Pixels.SliceIndexInRange` | icy/imagej/ImageJUtil.java:205-224 | every in-range (t, z, c) has a plane index c + C·(z + Z·t) inside a stack of Z·T·C planes |
| `Pixels.SliceIndexInjective` | icy/imagej/ImageJUtil.java:210-224 | two in-range triples with the same plane index are the same triple |
| `Pixels.SliceIndex` | icy/imagej/ImageJUtil.java:210-224 | the plane index of a triple of non-negative coordinates and sizes is not negative |
| `Pixels.SliceIndexSplit` | icy/imagej/ImageJUtil.java:210-224 | the index of (t, z, c) is the C·Z·t planes of the earlier time points followed by the offset c + C·z inside time point t |
| `ImageJ.Calibration.SetUnit` | icy/imagej/ImageJUtil.java:90 | the unit becomes the given one, or "pixel" when it is empty |
| `ImageJ.Calibration.SetTimeUnit` | icy/imagej/ImageJUtil.java:98 | the time unit becomes the given one, or "sec" when it is empty |
| `ImageJ.ImagePlus.NDimensions` | icy/imagej/ImageJUtil.java:102 | there are 2 to 5 dimensions, and more than 3 exactly when two of C, Z and T exceed 1 |
| `ImageJ.ImagePlus.constructor` | icy/imagej/ImageJUtil.java:227 | a new image over a stack has one channel, one frame, as many slices as planes, no ROI and a default calibration |
| `ImageJ.ImagePlus.SetPosition` | icy/imagej/ImageJUtil.java:139 | each coordinate of the position is clamped into its range |
| `ImageJ.ImagePlus.SetDimensions` | icy/imagej/ImageJUtil.java:101 | (C, Z, T) is taken when C·Z·T is the stack size, and (1, stack size, 1) otherwise |
| `ImageJ.ImagePlus.SetRoi` | icy/imagej/ImageJUtil.java:232 | the image's ROI becomes the given one |
| `ImageJ.ImagePlus.SetOpenAsHyperStack` | icy/imagej/ImageJUtil.java:102 | the hyperstack flag becomes the given value |
| `ImageJ.ImagePlus.MakeComposite` | icy/imagej/ImageJUtil.java:236-241 | wrapping in a `CompositeImage` records the given composite mode |
| `Icy.Sequence.constructor` | icy/imagej/ImageJUtil.java:113 | a new sequence has the given name, no image, no ROI, unit pixel sizes and time interval, and no open update |
| `Icy.Sequence.SetImage` | icy/imagej/ImageJUtil.java:168 | the image is stored at (t, z); the extent grows to hold it |
| `Icy.Sequence.AddRoi` | icy/imagej/ImageJUtil.java:180 | the ROI is appended |
| `Icy.Sequence.SetPixelSizeX` | icy/imagej/ImageJUtil.java:62 | the X pixel size becomes the given value |
| `Icy.Sequence.SetPixelSizeY` | icy/imagej/ImageJUtil.java:63 | the Y pixel size becomes the given value |
| `Icy.Sequence.SetPixelSizeZ` | icy/imagej/ImageJUtil.java:64 | the Z pixel size becomes the given value |
| `Icy.Sequence.SetTimeInterval` | icy/imagej/ImageJUtil.java:68 | the time interval becomes the given value |
| `Icy.Sequence.BeginUpdate` | icy/imagej/ImageJUtil.java:128 | one more update level is open |
| `Icy.Sequence.EndUpdate` | icy/imagej/ImageJUtil.java:188 | one update level is closed |
| `ImageJUtil.ImportedGeometries` | icy/imagej/ImageJUtil.java:253-313 | the type-code case table gives one geometry, except that a point ROI gives one Icy point per vertex; ovals and rectangles keep the float bounds |
| `ImageJUtil.ReadPolygon` | icy/imagej/ImageJUtil.java:274-276 | the copying loop yields the float polygon's vertices in order |
| `ImageJUtil.ConvertToIcyRoi` | icy/imagej/ImageJUtil.java:247-324 | the result is the case table's ROIs for the type code; each sits at the ImageJ position minus 1 and is unselected |
| `ImageJUtil.PointRoiFansOut` | icy/imagej/ImageJUtil.java:305-312 | a point ROI with k vertices gives exactly k Icy points, in vertex order |
| `ImageJUtil.PolygonRoiKeepsVertices` | icy/imagej/ImageJUtil.java:271-295 | each polygon type gives one ROI holding the vertices in order: a polygon for POLYGON, TRACED_ROI and FREEROI; a polyline for POLYLINE, FREELINE and ANGLE |
| `ImageJUtil.ImportCount` | icy/imagej/ImageJUtil.java:253-313 | only point ROIs give other than exactly one Icy ROI |
| `ImageJUtil.ExportedShape` | icy/imagej/ImageJUtil.java:332-384 | the instanceof chain picks the ImageJ class whose `getType()` matches the Icy class: POINT, LINE, OVAL, POLYGON, POLYLINE, COMPOSITE for a path, RECTANGLE for rectangles, areas and other ROI2Ds |
| `ImageJUtil.ConvertToImageJRoi` | icy/imagej/ImageJUtil.java:329-391 | the result is the ImageJ class for the Icy class, at the Icy position plus 1, with the ROI's name and colour; a ROI2D that is neither a shape nor an area becomes a rectangle on its bounds |
| `ImageJUtil.CopyPoints` | icy/imagej/ImageJUtil.java:360-362 | the copying loop yields the points in order |
| `ImageJUtil.RoundTripKeepsPosition` | icy/imagej/ImageJUtil.java:315-321 | export then import gives one ROI on the original (C, Z, T), unselected, with the default name and colour |
| `ImageJUtil.RoundTripKeepsGeometry` | icy/imagej/ImageJUtil.java:329-367 | with coordinates as exact reals, rectangles, ellipses, polygons, polylines and points survive export then import unchanged |
| `ImageJUtil.RoundTripLine` | icy/imagej/ImageJUtil.java:263-269 | a line comes back from the top-left to the bottom-right corner of its box, so it is unchanged exactly when its first point is above and left of its second |
| `ImageJUtil.RoundTripOthers` | icy/imagej/ImageJUtil.java:297-303 | an area comes back as its mask's rectangle, a path with its position moved to the shape's corner, a generic ROI as its bounds |
| `ImageJUtil.ImportThenExport` | icy/imagej/ImageJUtil.java:253-313 | an ImageJ rectangle, oval, polygon, polyline or single point comes back unchanged on the same position, except for the name and colour |
| `ImageJUtil.CalibrateIcySequence` | icy/imagej/ImageJUtil.java:55-70 | with a calibration, pixel sizes are copied exactly when it is scaled and the frame interval always; without one nothing changes |
| `ImageJUtil.CopyCalibration` | icy/imagej/ImageJUtil.java:77-99 | pixel sizes and unit "mm" are written only when some pixel size differs from 1; frame interval and "msec" only when the time interval differs from 1; otherwise the old values stay |
| `ImageJUtil.CalibrateImageJImage` | icy/imagej/ImageJUtil.java:75-106 | the calibration is written as `CopyCalibration` states; the dimensions become (C, Z, T) when the stack fits them; the image opens as a hyperstack exactly when it has more than three dimensions |
| `ImageJUtil.CalibrationRoundTrip` | icy/imagej/ImageJUtil.java:55-106 | Icy to ImageJ to Icy keeps the pixel sizes; a time interval of 1 comes back as ImageJ's 0, and any other comes back unchanged |
| `ImageJUtil.ReportedEach` | icy/imagej/ImageJUtil.java:216-217 | with a listener the k-th report is (k, len), or (0, len) while the position stays; without one nothing is reported |
| `ImageJUtil.ReportedNext` | icy/imagej/ImageJUtil.java:216-221 | a report at the current position followed by the increment keeps the reports in order |
| `ImageJUtil.ChannelPlanes` | icy/imagej/ImageJUtil.java:214-222 | the channel loop appends C planes, the c-th being `getDataXY(t, z, c)` |
| `ImageJUtil.SlicePlanesLength` | icy/imagej/ImageJUtil.java:212-223 | the planes of Z slices number C·Z |
| `ImageJUtil.TimePlanesLength` | icy/imagej/ImageJUtil.java:210-224 | the planes of T time points number C·(Z·T) |
| `ImageJUtil.SlicePlanesAt` | icy/imagej/ImageJUtil.java:212-223 | plane (t, z', c) sits at c + C·z' among the planes of time point t |
| `ImageJUtil.TimePlanesAt` | icy/imagej/ImageJUtil.java:210-224 | plane (t', z, c) sits at c + C·(z + Z·t') in the stack |
| `ImageJUtil.LastTimePlanesAt` | icy/imagej/ImageJUtil.java:210-224 | the planes appended for the last time point t sit at their index c + C·(z + Z·t), past the earlier time points |
| `ImageJUtil.StackChannels` | icy/imagej/ImageJUtil.java:214-222 | the innermost loop appends channel planes of (t, z) and reports each at the stack length |
| `ImageJUtil.StackTimePoint` | icy/imagej/ImageJUtil.java:212-223 | the slice loop appends the planes of time point t in z, c order |
| `ImageJUtil.StackSlices` | icy/imagej/ImageJUtil.java:205-224 | the nested loops build the whole stack in t, z, c order with progress 0, 1, …, len − 1 out of len |
| `ImageJUtil.StackedLength` | icy/imagej/ImageJUtil.java:205-224 | the stack has exactly Z·T·C planes, as many as `len` |
| `ImageJUtil.StackedAll` | icy/imagej/ImageJUtil.java:210-224 | the plane at index c + C·(z + Z·t) is `getDataXY(t, z, c)`, for every in-range triple |
| `ImageJUtil.CompositeFor` | icy/imagej/ImageJUtil.java:236-241 | more than 4 channels give COLOR, 2 to 4 give COMPOSITE, 1 gives the plain image |
| `ImageJUtil.NewStackImage` | icy/imagej/ImageJUtil.java:199-232 | the image is built over the stack of Z·T·C planes, with the progress reports and the first ROI converted |
| `ImageJUtil.HyperstackPlanes` | icy/imagej/ImageJUtil.java:210-234 | with dimensions (C, Z, T) set on the t, z, c stack, the plane at 1-based (c + 1, z + 1, t + 1) is `getDataXY(t, z, c)` |
| `ImageJUtil.StackPlanes` | icy/imagej/ImageJUtil.java:210-234 | the same for all triples, on the value of the image |
| `ImageJUtil.StackPlaneAt` | icy/imagej/ImageJUtil.java:210-234 | the same for one triple |
| `ImageJUtil.ConvertToImageJImage` | icy/imagej/ImageJUtil.java:197-242 | the result has the sequence's name, size and (C, Z, T); plane (c + 1, z + 1, t + 1) is `getDataXY(t, z, c)`; it has the first ROI, the calibration, the hyperstack flag, the composite mode for C, and progress over Z·T·C |
| `ImageJUtil.ImportedChannel` | icy/imagej/ImageJUtil.java:149-165 | a channel holds samples unless it is a channel after the first of signed data; unsigned channel c is the plane at (c + 1, z + 1, t + 1); signed channel 0 keeps the plane's length |
| `ImageJUtil.ImportedChannels` | icy/imagej/ImageJUtil.java:149-165 | the data array has one entry per channel, each as the channel loop stores it |
| `ImageJUtil.ImportKeepsPlanes` | icy/imagej/ImageJUtil.java:146-168 | unsigned data read channel by channel: channel c of (t, z) is the ImageJ plane at (c + 1, z + 1, t + 1) |
| `ImageJUtil.SignedFirstChannel` | icy/imagej/ImageJUtil.java:152-155 | signed 16-bit data: every sample of channel 0 is the raw sample minus 32768 stored back in 16 bits; for a raw short that is its unsigned sample minus 32768 |
| `ImageJUtil.ReadChannels` | icy/imagej/ImageJUtil.java:146-165 | the channel loop, moving the position to each channel, fills the data array as `ImportedChannels` states |
| `ImageJUtil.ReadChannel` | icy/imagej/ImageJUtil.java:159-164 | one later channel: the position moves to (c + 1, z + 1, t + 1), and the data stored is `ImportedChannel` of that channel: its pixels, or for a signed 16-bit image `WholeArraySubtracted`, the subtraction applied to the whole channel array |
| `ImageJUtil.ReadImage` | icy/imagej/ImageJUtil.java:139-168 | after moving to (1, z + 1, t + 1), the Icy image of (t, z) is the java.awt image for single-channel RGB or indexed colour, and the channel data otherwise |
| `ImageJUtil.ImportSlice` | icy/imagej/ImageJUtil.java:139-168 | storing the image of (t, z) extends the stored images by that one entry |
| `ImageJUtil.ImportedImagesBefore` | icy/imagej/ImageJUtil.java:132-173 | once the loops reach (t, z), the stored images are exactly those of every earlier (t', z') in t-then-z order, each as read |
| `ImageJUtil.ImportStep` | icy/imagej/ImageJUtil.java:136-170 | one pass reports progress at the position, stores one image and counts it only when it was read channel by channel |
| `ImageJUtil.ImportTimePoint` | icy/imagej/ImageJUtil.java:134-172 | the slice loop stores the images of time point t and reports its Z steps |
| `ImageJUtil.ImportImages` | icy/imagej/ImageJUtil.java:125-173 | the nested loops store one image per (t, z) with the image's X, Y, Z, T sizes, and report progress out of Z·T |
| `ImageJUtil.AddRois` | icy/imagej/ImageJUtil.java:179-180 | the ROIs are appended in order |
| `ImageJUtil.ImportRoi` | icy/imagej/ImageJUtil.java:176-181 | the image's ROI, if any, is appended as its Icy ROIs |
| `ImageJUtil.ImportedSequence` | icy/imagej/ImageJUtil.java:113-173 | a new sequence, inside one update, holds the image of every (t, z) |
| `ImageJUtil.ConvertToIcySequence` | icy/imagej/ImageJUtil.java:111-192 | the result is named after the image; it holds one image per (t, z), the image's sizes, its ROI's Icy ROIs and its calibration; its update is closed; progress goes 0, 1, … out of Z·T (all 0 through java.awt) |
| `ImageJUtil.ImportedData` | icy/imagej/ImageJUtil.java:132-168 | for unsigned data read channel by channel, every imported (t, z) holds sample planes, channel c being the plane at (c + 1, z + 1, t + 1) |
| `ImageJUtil.ImportedFilled` | icy/imagej/ImageJUtil.java:132-173 | such an imported sequence has samples at every (t, z, c) of its extent |
| `ImageJUtil.ExportImportData` | icy/imagej/ImageJUtil.java:132-168 | an image showing a sequence's planes, imported back, gives those planes |
| `ImageJUtil.IcyRoundTrip` | icy/imagej/ImageJUtil.java:197-242 | Icy to ImageJ to Icy keeps the extent and every plane, unless the image is a single-channel RGB or indexed-colour image |
| `ImageJUtil.ImportExportPlanes` | icy/imagej/ImageJUtil.java:210-224 | an image showing the imported planes of an unsigned image shows the original planes |
| `ImageJUtil.ImageJRoundTrip` | icy/imagej/ImageJUtil.java:111-192 | ImageJ to Icy to ImageJ keeps the dimensions and the plane at every (c, z, t) for unsigned data read channel by channel |

## Left out

- The painting, mouse forwarding, frame listener registration and
  `checkPosition` of `IcyDesktopPane` are left out. They are Swing
  behaviour.
- In `organizeTile`, `HungarianAlgorithm` and the distance matrix it is
  given are left out. The resulting `framePos` is a parameter. The
  distances are floating point and the solver is foreign code.
- In `organizeCascade`, the frame size `(int) (w * 0.6f)` is a parameter,
  because it is float arithmetic.
- Pixel sizes and intervals are Dafny reals, with no double rounding.
- `ImageJUtil.RoundTripKeepsGeometry`: ROI coordinates are exact reals.
  Java narrows exported vertices to float, in `FloatPolygon.addPoint` and
  `new PointRoi(double, double)`. Import rebuilds them as
  `Point2D.Float`. So polygon, polyline and point vertices survive the
  round trip only when they are representable as float.
- `Pixels.Subtract`: the narrowing back to a short is modelled, which is
  what `ArrayMath.subtract` on 16-bit data stores. `ArrayMath` is not part
  of this model. Plane elements are plain ints, and 16-bit planes are
  not constrained to the short range by type. `ImageJUtil.SignedFirstChannel`
  states the unsigned reading only for elements in that range.
- `ImageJUtil.ConvertToImageJRoi`: an Icy `ROI2DShape` subclass other than
  point, line, rectangle, ellipse, polyline, polygon and path reaches the
  cast to `ROI2DPath` and throws `ClassCastException`. That class and the
  error path are not modelled. `Generic` stands only for a `ROI2D` that is
  neither a `ROI2DShape` nor a `ROI2DArea`.
- `ImageJUtil.ImportedChannel`: for signed 16-bit data, channels after
  the first store what `ArrayMath.subtract` returns for the whole channel
  array. Line 164 of icy/imagej/ImageJUtil.java passes `datas`, not
  `datas[c]`. The model keeps this as an uninterpreted marker and claims
  nothing about those channels.
- `ImageJUtil.ConvertToIcySequence`: in the java.awt branch (single-channel
  RGB or indexed colour), `position` is never incremented. So progress
  stays at 0, and the model states exactly that. The Icy image built by
  `IcyBufferedImage.createFrom` is opaque: only its size and source plane
  are kept. The channel count it gives the sequence is not stated.
- `ImageJUtil.ConvertToIcySequence`: the image's position at the end is
  not stated. Only that it stays in range is tracked inside the loops.
- `ImageJUtil.ConvertToImageJImage`:
  - ImageJ infers the image type from the pixel arrays; here it is a
    parameter;
  - the `CompositeImage` wrapper is a mode field on the same image;
  - the caller must pass a sequence with samples at every (t, z, c) and
    every size at least 1, because ImageJ refuses an empty stack.
- `ImageJUtil.ConvertToImageJRoi`: shapes and masks (`ShapeRoi`,
  `ROI2DPath`, `ImageRoi`, the painter's alpha) are opaque values. An
  Icy ROI's `getPoints()` is its geometry's point list.
- The `try`/`finally` around the update of `convertToIcySequence` is not
  modelled, because nothing in the model throws. The update level is
  closed at the end.
- The pixel arrays handed between the objects are values, so aliasing of
  the buffers and in-place changes to them are not modelled.
- The default name and colour of a new Icy ROI are placeholders.
- `getExtensionFileFilter` and `getDescription` of `FileFormat` are left
  out. The first builds a foreign object; the second is a display string
  that nothing in the model reads. The fallback `getExtensions` is
  overridden by every constant.
- MainInterface.java, MainListener.java, ToolbarWrapper.java,
  ImageLoaderDialog.java, CanvasPreferencePanel.java,
  PluginLocalPreferencePanel.java and PluginScalerPanel.java are not part
  of this model. They are interfaces or Swing and I/O glue.

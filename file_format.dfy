/**
 * The file formats Icy recognises by extension: an enumeration whose
 * constants each carry a fixed list of extensions, and a first-match
 * lookup over the constants in declaration order.
 */
module FileFormats {
  import opened Wrappers

  datatype FileFormat = TIFF | PNG | LSM | JPG | AVI

  /** values(): the constants in declaration order. */
  const Values: seq<FileFormat> := [TIFF, PNG, LSM, JPG, AVI]

  /** ordinal(): the position of a constant in declaration order. */
  function Ordinal(f: FileFormat): (i: nat)
    ensures i < |Values| && Values[i] == f
  {
    match f
    case TIFF => 0
    case PNG => 1
    case LSM => 2
    case JPG => 3
    case AVI => 4
  }

  /** getExtensions(), as each constant overrides it. */
  function Extensions(f: FileFormat): (exts: seq<string>)
    ensures |exts| >= 1
    ensures forall e :: e in exts ==> |e| > 0 && 'a' <= e[0] <= 'z'
  {
    match f
    case TIFF => ["tif", "tiff"]
    case PNG => ["png"]
    case LSM => ["lsm"]
    case JPG => ["jpg", "jpeg"]
    case AVI => ["avi"]
  }

  /** The early-return scan of `matches` over an extension list. */
  function MatchesAny(exts: seq<string>, ext: string): (b: bool)
    ensures b <==> ext in exts
  {
    if exts == [] then false
    else if exts[0] == ext then true
    else MatchesAny(exts[1..], ext)
  }

  /** matches(ext): exact, case-sensitive comparison with each extension. */
  function Matches(f: FileFormat, ext: string): (b: bool)
    ensures b <==> ext in Extensions(f)
  {
    MatchesAny(Extensions(f), ext)
  }

  /**
   * The loop of getFileFormat(ext, defaultValue) over a list of formats:
   * the first format that matches, or the default when none does.
   */
  function FirstMatch(formats: seq<FileFormat>, ext: string, default: Option<FileFormat>): (r: Option<FileFormat>)
    ensures (forall i :: 0 <= i < |formats| ==> !Matches(formats[i], ext)) ==> r == default
    ensures forall i :: 0 <= i < |formats| && Matches(formats[i], ext) &&
                        (forall j :: 0 <= j < i ==> !Matches(formats[j], ext))
                   ==> r == Some(formats[i])
    ensures r != default ==> r.Some? && r.value in formats && Matches(r.value, ext)
  {
    if formats == [] then default
    else if Matches(formats[0], ext) then Some(formats[0])
    else FirstMatch(formats[1..], ext, default)
  }

  /**
   * Because the extension lists are disjoint, the scan over values()
   * finds the one format an extension belongs to wherever that format is
   * declared, whatever the default.
   */
  lemma FirstMatchFindsOwner(ext: string, f: FileFormat, default: Option<FileFormat>)
    requires Matches(f, ext)
    ensures FirstMatch(Values, ext, default) == Some(f)
  {
    var i := Ordinal(f);
    forall j | 0 <= j < i
      ensures !Matches(Values[j], ext)
    {
      ExtensionsDisjoint(f, Values[j], ext);
    }
    assert Values[i] == f && Matches(Values[i], ext);
  }

  /**
   * getFileFormat(String, FileFormat): a null default is None, so the
   * result is a format or whatever default the caller passed.
   */
  function GetFileFormatOr(ext: string, default: Option<FileFormat>): (r: Option<FileFormat>)
    ensures (forall f :: !Matches(f, ext)) ==> r == default
    ensures r != default ==> r.Some? && Matches(r.value, ext)
    ensures forall f :: Matches(f, ext) ==> r == Some(f)
  {
    assert forall f :: Matches(f, ext) ==> FirstMatch(Values, ext, default) == Some(f) by {
      forall f | Matches(f, ext)
        ensures FirstMatch(Values, ext, default) == Some(f)
      {
        FirstMatchFindsOwner(ext, f, default);
      }
    }
    FirstMatch(Values, ext, default)
  }

  /** getFileFormat(String): None (null) when no format matches. */
  function GetFileFormat(ext: string): (r: Option<FileFormat>)
    ensures r.None? <==> forall f :: !Matches(f, ext)
    ensures r.Some? ==> Matches(r.value, ext)
  {
    GetFileFormatOr(ext, None)
  }

  /** No extension belongs to two formats. */
  lemma ExtensionsDisjoint(f: FileFormat, g: FileFormat, ext: string)
    requires f != g && Matches(f, ext)
    ensures !Matches(g, ext)
  {
  }

  /** The lookup is exactly "the format owning ext, else the default". */
  lemma LookupIff(ext: string, f: FileFormat, default: Option<FileFormat>)
    requires default.None?
    ensures GetFileFormatOr(ext, default) == Some(f) <==> Matches(f, ext)
  {
  }

  /** Both spellings of TIFF map to TIFF, both spellings of JPEG to JPG. */
  lemma AlternativeSpellings()
    ensures GetFileFormat("tif") == Some(TIFF) && GetFileFormat("tiff") == Some(TIFF)
    ensures GetFileFormat("jpg") == Some(JPG) && GetFileFormat("jpeg") == Some(JPG)
  {
    assert Matches(TIFF, "tif");
    assert Matches(TIFF, "tiff");
    assert Matches(JPG, "jpg");
    assert Matches(JPG, "jpeg");
  }

  /** Every extension starts with a lower-case letter, so nothing else matches. */
  lemma NotAnExtension(f: FileFormat, ext: string)
    requires |ext| > 0 && !('a' <= ext[0] <= 'z')
    ensures !Matches(f, ext)
  {
  }

  /** The comparison is exact: case and a leading dot matter. */
  lemma NoCaseFolding()
    ensures GetFileFormat("TIF") == None
    ensures GetFileFormat(".tif") == None
  {
    forall f: FileFormat ensures !Matches(f, "TIF") && !Matches(f, ".tif") {
      NotAnExtension(f, "TIF");
      NotAnExtension(f, ".tif");
    }
  }
}

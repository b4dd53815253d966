/** The checks an uploaded image passes before it is stored, the dimensions
    reported back, and where a stored image lives. */
module ImageStore {
  import opened Common

  /** `MAX_IMAGE_SIZE_MB`. */
  const MaxImageSizeMb: nat := 10
  /** `MAX_IMAGE_DIMENSION`: the largest width or height accepted. */
  const MaxImageDimension: nat := 4096

  /** The byte limit `_validate_size` compares against. */
  function MaxBytes(): (n: nat)
    ensures n == 10485760
  {
    MaxImageSizeMb * 1024 * 1024
  }

  datatype StoreError =
    | FileTooLarge(maxMb: nat)
    | DimensionsTooLarge(width: nat, height: nat, maxSide: nat)
    | Undecodable(reason: string)

  /** `_validate_size`: an error exactly when the content is longer than the limit. */
  function ValidateSize(content: seq<Byte>): (r: Option<StoreError>)
    ensures r.None? <==> |content| <= 10485760
    ensures r.Some? ==> r.value == FileTooLarge(10)
  {
    if |content| > MaxBytes() then Some(FileTooLarge(MaxImageSizeMb)) else None
  }

  /** `_validate_dimensions`: an error exactly when either side exceeds 4096. */
  function ValidateDimensions(width: nat, height: nat): (r: Option<StoreError>)
    ensures r.None? <==> width <= 4096 && height <= 4096
    ensures r.Some? ==> r.value == DimensionsTooLarge(width, height, 4096)
  {
    if width > MaxImageDimension || height > MaxImageDimension
    then Some(DimensionsTooLarge(width, height, MaxImageDimension))
    else None
  }

  /** A decoded picture: its stored size and its EXIF orientation tag (1
      when there is none). */
  datatype Picture = Picture(width: nat, height: nat, orientation: nat)

  /** `ImageOps.exif_transpose` on the picture's size: orientations 5 to 8
      turn it a quarter, so width and height swap; the result is upright. */
  function ExifTranspose(p: Picture): (q: Picture)
    ensures q.orientation == 1
    ensures 5 <= p.orientation <= 8 ==> q.width == p.height && q.height == p.width
    ensures !(5 <= p.orientation <= 8) ==> q.width == p.width && q.height == p.height
  {
    if 5 <= p.orientation <= 8 then Picture(p.height, p.width, 1) else Picture(p.width, p.height, 1)
  }

  /** `save_image` without the file write: the size is checked before the
      content is decoded (`decode`, the image library), the dimensions after
      the EXIF transpose, and the id (`newId`, a fresh random hex string) is
      returned with the upright width and height. */
  function SaveImage(content: seq<Byte>, decode: seq<Byte> -> Result<Picture, string>, newId: string)
    : (r: Result<(string, nat, nat), StoreError>)
    ensures |content| > 10485760 ==> r == Err(FileTooLarge(10))
    ensures r.Ok? <==>
      && |content| <= 10485760
      && decode(content).Ok?
      && ExifTranspose(decode(content).value).width <= 4096
      && ExifTranspose(decode(content).value).height <= 4096
    ensures r.Ok? ==> r.value == (newId, ExifTranspose(decode(content).value).width,
                                         ExifTranspose(decode(content).value).height)
  {
    match ValidateSize(content)
    case Some(e) => Err(e)
    case None =>
      match decode(content)
      case Err(reason) => Err(Undecodable(reason))
      case Ok(picture) =>
        var upright := ExifTranspose(picture);
        match ValidateDimensions(upright.width, upright.height)
        case Some(e) => Err(e)
        case None => Ok((newId, upright.width, upright.height))
  }

  /** An oversized upload is rejected whatever its bytes would decode to. */
  lemma SizeCheckPrecedesDecoding(content: seq<Byte>, d1: seq<Byte> -> Result<Picture, string>,
                                  d2: seq<Byte> -> Result<Picture, string>, newId: string)
    requires |content| > MaxBytes()
    ensures SaveImage(content, d1, newId) == SaveImage(content, d2, newId)
  {
  }

  /** `IMAGE_DIR`, as path components below the backend's base directory. */
  const ImageDir: seq<string> := ["static", "images"]

  /** `get_image_path`: the file `<id>.png` in the image directory. */
  function GetImagePath(imageId: string): (p: seq<string>)
    ensures |p| == |ImageDir| + 1 && p[..|ImageDir|] == ImageDir
    ensures p[|ImageDir|] == imageId + ".png"
  {
    ImageDir + [imageId + ".png"]
  }

  /** Distinct ids never share a file. */
  lemma {:induction false} ImagePathInjective(a: string, b: string)
    requires GetImagePath(a) == GetImagePath(b)
    ensures a == b
  {
    var fa, fb := a + ".png", b + ".png";
    assert fa == GetImagePath(a)[2] == GetImagePath(b)[2] == fb;
    assert a == fa[..|a|];
    assert b == fb[..|b|];
  }
}

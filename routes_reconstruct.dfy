/** The reconstruct endpoint up to the reconstructed luma channel: load the
    stored image, take forward gradients of its luma, add each transmitted
    edit layer at a tenth of its decoded value after checking its shape,
    map every failure to an HTTP error, and hand the result to the solver. */
module ReconstructRoute {
  import opened Common
  import opened Grids
  import opened GradientOps
  import opened PoissonSolver

  /** `DELTA_SCALE`: a full-white stroke adds 0.1 to a derivative. */
  const DeltaScale: real := 0.1

  datatype HttpError = HttpError(status: int, code: string, message: string)

  /** The image store's answer for the requested id: the luma channel of
      the stored image with its height and width, no such file, or another
      failure with its message. */
  datatype LoadOutcome =
    | Loaded(luma: Grid<real>, height: nat, width: nat)
    | Missing
    | LoadFailed(reason: string)

  ghost predicate WellFormedLoad(load: LoadOutcome) {
    load.Loaded? ==> IsMatrix(load.luma, load.height, load.width)
  }

  /** The result of base64-decoding an edit string and reading it as a
      greyscale PNG: a raster with its shape, or the exception's message. */
  datatype DecodeOutcome =
    | Decoded(pixels: Grid<Byte>, height: nat, width: nat)
    | DecodeFailed(reason: string)

  /** Base64 and PNG decoding, as far as this model depends on them: a
      decoded raster has the shape it reports. */
  type PngDecoder = f: string -> DecodeOutcome |
    forall s :: f(s).Decoded? ==> IsMatrix(f(s).pixels, f(s).height, f(s).width)
    witness (s: string) => DecodeFailed("")

  /** `orig + delta * DELTA_SCALE` with `delta` the decoded raster. */
  function AddScaledDelta(orig: Grid<real>, pixels: Grid<Byte>, h: nat, w: nat): (r: Grid<real>)
    requires IsMatrix(orig, h, w) && IsMatrix(pixels, h, w)
    ensures IsMatrix(r, h, w)
    ensures forall y, x :: 0 <= y < h && 0 <= x < w ==>
      && (r[y][x] > orig[y][x] <==> pixels[y][x] >= 128)
      && (r[y][x] < orig[y][x] <==> pixels[y][x] <= 127)
      && (pixels[y][x] == 255 ==> r[y][x] == orig[y][x] + DeltaScale)
      && (pixels[y][x] == 0 ==> r[y][x] == orig[y][x] - DeltaScale)
  {
    var delta := DecodeField(pixels);
    seq(h, y requires 0 <= y < h => seq(w, x requires 0 <= x < w =>
      orig[y][x] + delta[y][x] * DeltaScale))
  }

  /** One channel of step 3: an absent or empty edit leaves the original
      gradient; an undecodable one is a 400 "Cannot decode edits"; one of
      the wrong shape is a 400 naming the channel; otherwise the scaled
      delta is added. */
  function ApplyEdit(orig: Grid<real>, h: nat, w: nat, edit: Option<string>, channel: string, decode: PngDecoder)
    : (r: Result<Grid<real>, HttpError>)
    requires IsMatrix(orig, h, w)
    ensures !Truthy(edit) ==> r == Ok(orig)
    ensures r.Ok? ==> IsMatrix(r.value, h, w)
    ensures r.Ok? ==> forall y, x :: 0 <= y < h && 0 <= x < w ==> Abs(r.value[y][x] - orig[y][x]) <= DeltaScale
    ensures r.Err? <==> Truthy(edit) && (decode(edit.value).DecodeFailed? ||
                                         decode(edit.value).height != h || decode(edit.value).width != w)
    ensures r.Err? ==> r.error.status == 400 && r.error.code == "INVALID_REQUEST"
    ensures Truthy(edit) && r.Ok? ==>
      decode(edit.value).Decoded? && r.value == AddScaledDelta(orig, decode(edit.value).pixels, h, w)
  {
    if !Truthy(edit) then Ok(orig)
    else
      match decode(edit.value)
      case DecodeFailed(reason) =>
        Err(HttpError(400, "INVALID_REQUEST", "Cannot decode edits: " + reason))
      case Decoded(pixels, dh, dw) =>
        if dh != h || dw != w then
          Err(HttpError(400, "INVALID_REQUEST", "Edited " + channel + " does not match image dimensions"))
        else
          Ok(AddScaledDelta(orig, pixels, h, w))
  }

  /** Step 3 for both channels: dx is processed completely before dy, so a
      failure on dx is the answer whatever dy holds. */
  function ApplyEdits(origDx: Grid<real>, origDy: Grid<real>, h: nat, w: nat,
                      editedDx: Option<string>, editedDy: Option<string>, decode: PngDecoder)
    : (r: Result<(Grid<real>, Grid<real>), HttpError>)
    requires IsMatrix(origDx, h, w) && IsMatrix(origDy, h, w)
    ensures ApplyEdit(origDx, h, w, editedDx, "dx", decode).Err? ==>
      r == Err(ApplyEdit(origDx, h, w, editedDx, "dx", decode).error)
    ensures ApplyEdit(origDx, h, w, editedDx, "dx", decode).Ok? &&
            ApplyEdit(origDy, h, w, editedDy, "dy", decode).Err? ==>
      r == Err(ApplyEdit(origDy, h, w, editedDy, "dy", decode).error)
    ensures r.Ok? <==> ApplyEdit(origDx, h, w, editedDx, "dx", decode).Ok? &&
                       ApplyEdit(origDy, h, w, editedDy, "dy", decode).Ok?
    ensures r.Ok? ==> r.value.0 == ApplyEdit(origDx, h, w, editedDx, "dx", decode).value &&
                      r.value.1 == ApplyEdit(origDy, h, w, editedDy, "dy", decode).value
  {
    match ApplyEdit(origDx, h, w, editedDx, "dx", decode)
    case Err(e) => Err(e)
    case Ok(finalDx) =>
      match ApplyEdit(origDy, h, w, editedDy, "dy", decode)
      case Err(e) => Err(e)
      case Ok(finalDy) => Ok((finalDx, finalDy))
  }

  /** The endpoint up to the reconstructed luma: a missing image is a 404
      and any other load failure a 500, both before any edit is decoded;
      then the edits are applied to the forward gradients of the luma and
      the luma is reconstructed with itself as the boundary image. */
  function ReconstructLuma(imageId: string, load: LoadOutcome, editedDx: Option<string>, editedDy: Option<string>,
                           decode: PngDecoder, solve: DstSolve): (r: Result<Grid<real>, HttpError>)
    requires WellFormedLoad(load)
    ensures load.Missing? ==> r == Err(HttpError(404, "IMAGE_NOT_FOUND", "No image " + imageId))
    ensures load.LoadFailed? ==> r == Err(HttpError(500, "INTERNAL_SERVER_ERROR", load.reason))
    ensures r.Ok? ==> load.Loaded? && IsMatrix(r.value, load.height, load.width)
    ensures load.Loaded? ==>
      var h, w := load.height, load.width;
      var e := ApplyEdits(ForwardDx(load.luma, h, w), ForwardDy(load.luma, h, w), h, w, editedDx, editedDy, decode);
      && (e.Err? ==> r == Err(e.error))
      && (e.Ok? ==> r == Ok(Reconstruct(e.value.0, e.value.1, Gray(load.luma), h, w, solve)))
  {
    match load
    case Missing => Err(HttpError(404, "IMAGE_NOT_FOUND", "No image " + imageId))
    case LoadFailed(reason) => Err(HttpError(500, "INTERNAL_SERVER_ERROR", reason))
    case Loaded(luma, h, w) =>
      match ApplyEdits(ForwardDx(luma, h, w), ForwardDy(luma, h, w), h, w, editedDx, editedDy, decode)
      case Err(e) => Err(e)
      case Ok(finals) => Ok(Reconstruct(finals.0, finals.1, Gray(luma), h, w, solve))
  }

  /** An edit on one channel never changes the other channel's final gradient. */
  lemma EditsStayInTheirChannel(origDx: Grid<real>, origDy: Grid<real>, h: nat, w: nat,
                                dxA: Option<string>, dxB: Option<string>, editedDy: Option<string>,
                                decode: PngDecoder)
    requires IsMatrix(origDx, h, w) && IsMatrix(origDy, h, w)
    requires ApplyEdits(origDx, origDy, h, w, dxA, editedDy, decode).Ok?
    requires ApplyEdits(origDx, origDy, h, w, dxB, editedDy, decode).Ok?
    ensures ApplyEdits(origDx, origDy, h, w, dxA, editedDy, decode).value.1
         == ApplyEdits(origDx, origDy, h, w, dxB, editedDy, decode).value.1
  {
  }

  /** A transmitted layer the user never touched is not a no-op: every
      neutral 128 pixel still adds 0.1 / 255 to the gradient. */
  lemma UntouchedLayerShiftsGradient(orig: Grid<real>, h: nat, w: nat, edit: string, decode: PngDecoder)
    requires IsMatrix(orig, h, w) && edit != ""
    requires decode(edit).Decoded? && decode(edit).height == h && decode(edit).width == w
    requires forall y, x :: 0 <= y < h && 0 <= x < w ==> decode(edit).pixels[y][x] == 128
    ensures ApplyEdit(orig, h, w, Some(edit), "dx", decode).Ok?
    ensures forall y, x :: 0 <= y < h && 0 <= x < w ==>
      ApplyEdit(orig, h, w, Some(edit), "dx", decode).value[y][x] == orig[y][x] + 1.0 / 2550.0
  {
    DeltaOfByteLandmarks();
  }

  /** With no edits, the reconstructed luma of an image whose luma lies in
      [0, 1] is that luma. */
  lemma NoEditsReconstructsOriginal(imageId: string, luma: Grid<real>, h: nat, w: nat,
                                    editedDx: Option<string>, editedDy: Option<string>,
                                    decode: PngDecoder, solve: DstSolve)
    requires IsMatrix(luma, h, w)
    requires forall y, x :: 0 <= y < h && 0 <= x < w ==> 0.0 <= luma[y][x] <= 1.0
    requires !Truthy(editedDx) && !Truthy(editedDy)
    ensures ReconstructLuma(imageId, Loaded(luma, h, w), editedDx, editedDy, decode, solve) == Ok(luma)
  {
    var dx, dy := ForwardDx(luma, h, w), ForwardDy(luma, h, w);
    assert ApplyEdits(dx, dy, h, w, editedDx, editedDy, decode) == Ok((dx, dy));
    var result := Reconstruct(dx, dy, Gray(luma), h, w, solve);
    if h > 2 && w > 2 {
      ReconstructWithoutEditsIsClippedOriginal(luma, h, w, solve);
      MatrixExt(result, luma, h, w);
    } else {
      SmallImageReturnsBoundary(dx, dy, Gray(luma), h, w, solve);
    }
  }
}

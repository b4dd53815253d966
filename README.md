# GradientVision Lab: the gradient-edit pipeline in Dafny

GradientVision Lab lets a user edit an image in the gradient domain. The
user works on two tabs, one per derivative channel (dx and dy).

On each tab, the frontend keeps an 8-bit greyscale edit layer:
- The layer starts at neutral grey 128.
- Brush tools paint on it: dx and dy add white, Shift subtracts black, sharpen adds white, and erase restores 128.
- When a stroke ends, the layer is committed to the lab session as a PNG data URL.

The reconstruct button strips the `data:...;base64,` envelope from the two
committed layers and posts them to the backend.

The backend then:
1. Loads the stored image.
2. Takes forward-difference gradients of its luma.
3. Decodes each transmitted layer to deltas in [-1, 1].
4. Adds a tenth of each delta to its channel.
5. Rebuilds the luma with a residual Poisson solve whose boundary is the original luma.

Uploads are checked before they are stored: the byte size first, then the
dimensions after the EXIF rotation.

The model is organised as follows:
- `common.dfy`: Option and Result, bytes, JavaScript truthiness of strings, min, max and clip.
- `grids.dfy`: matrices as sequences of rows, and the view of a two-dimensional array as one.
- `api_url.dfy`: `getApiUrl`.
- `lab_state.dfy`: the lab session (`LabProvider`) as a class with one field per state hook and one method per setter.
- `gradient_canvas.dfy`: one gradient canvas.
  - The edit layer is an `array2` painted in place.
  - The pointer mapping, the tool gating and the per-pixel brush compositing are pure functions.
  - The event handlers are methods of `EditCanvas`.
- `reconstruction_panel.dfy`: `cleanBase64`, built on JavaScript `split`, and the reconstruct handler, split at its `await`.
- `gradient_ops.py` → `gradient_ops.dfy`:
  - forward gradients, as an array method proved against matrix functions;
  - the byte-to-delta decode map;
  - the two visual normalisers;
  - `create_gradient_visual`.
- `poisson_solver.py` → `poisson_solver.dfy`:
  - `reconstruct_image_from_gradients`, as array steps proved against matrix functions;
  - the DST-I solve, as a parameter.
- `routes_reconstruct.py` → `routes_reconstruct.dfy`: the reconstruct endpoint, from the image load to the reconstructed luma.
- `image_store.py` → `image_store.dfy`: the upload validators, the order of checks in `save_image`, and `get_image_path`.

## Model

| member | source | states |
|---|---|---|
| ApiUrl.GetApiUrl | frontend/lib/utils.ts:8-16 | an absent or empty path gives ""; a path starting with "http" is returned as is; any other path is appended to the base with exactly one '/' between them |
| ApiUrl.ResolvedUrlIsAbsolute | frontend/lib/utils.ts:12-15 | with an absolute base, every non-empty path resolves to a URL starting with "http" |
| ApiUrl.GetApiUrlIdempotent | frontend/lib/utils.ts:10-15 | resolving an already resolved URL again gives the same URL |
| ApiUrl.DefaultBaseIsAbsolute | frontend/lib/utils.ts:12 | the fallback origin is absolute |
| LabSession.LabState.constructor | frontend/app/lab/providers.tsx:41-51 | the session starts with no image, meta, gradients, reconstruction or edits, tool dx, brush size 20 and strength 0.5 |
| LabSession.LabState.SetImageId | frontend/app/lab/providers.tsx:41 | the setter changes the image id and nothing else |
| LabSession.LabState.SetImageMeta | frontend/app/lab/providers.tsx:42 | the setter changes the image meta and nothing else |
| LabSession.LabState.SetGradients | frontend/app/lab/providers.tsx:43 | the setter changes the gradients and nothing else |
| LabSession.LabState.SetEditMode | frontend/app/lab/providers.tsx:44 | the setter changes the tool and nothing else |
| LabSession.LabState.SetBrushSize | frontend/app/lab/providers.tsx:45 | the setter changes the brush size and nothing else |
| LabSession.LabState.SetBrushStrength | frontend/app/lab/providers.tsx:46 | the setter changes the brush strength and nothing else |
| LabSession.LabState.SetReconstructedUrl | frontend/app/lab/providers.tsx:47 | the setter changes the reconstructed URL and nothing else |
| LabSession.LabState.SetDxEditDataUrl | frontend/app/lab/providers.tsx:50 | the setter changes the dx edit slot and nothing else |
| LabSession.LabState.SetDyEditDataUrl | frontend/app/lab/providers.tsx:51 | the setter changes the dy edit slot and nothing else |
| LabSession.LabState.ResetEdits | frontend/app/lab/providers.tsx:53-56 | the new session is the old one with both edit slots emptied |
| LabSession.ResetEditsClearsOnlySlots | frontend/app/lab/providers.tsx:53-56 | resetEdits empties both edit slots and keeps image, meta, gradients, reconstructed URL, tool and brush settings |
| LabSession.ResetEditsIdempotent | frontend/app/lab/providers.tsx:53-56 | resetting twice is the same as resetting once |
| LabSession.LabState.LoadNewImage | frontend/components/lab/ImageLoaderPanel.tsx:24-30 | a successful upload sets the id, the dimensions and the gradients; the edit slots of the previous image are kept |
| ReconstructionPanel.SplitJoin | frontend/components/lab/ReconstructionPanel.tsx:28 | joining the pieces of `split` with the separator gives back the string, and no piece contains the separator |
| ReconstructionPanel.SplitWithoutSeparator | frontend/components/lab/ReconstructionPanel.tsx:28 | a string without the separator splits into itself alone |
| ReconstructionPanel.SplitAtFirst | frontend/components/lab/ReconstructionPanel.tsx:28 | the first piece is the text before the first separator; the rest are the pieces of what follows it |
| ReconstructionPanel.CleanBase64 | frontend/components/lab/ReconstructionPanel.tsx:26-29 | a payload is extracted exactly when the URL is present, non-empty and contains a comma, and the payload contains no comma |
| ReconstructionPanel.NoCommaGivesNothing | frontend/components/lab/ReconstructionPanel.tsx:26-29 | a URL without a comma yields no payload |
| ReconstructionPanel.CleanBase64TakesSecondPiece | frontend/components/lab/ReconstructionPanel.tsx:28 | the payload is the text between the first comma and the next comma or the end; anything after a second comma is dropped |
| ReconstructionPanel.StripDataUrlEnvelope | frontend/components/lab/ReconstructionPanel.tsx:25-28 | stripping a `data:<mime>;base64,<payload>` URL gives back the payload |
| ReconstructionPanel.Panel.constructor | frontend/components/lab/ReconstructionPanel.tsx:18 | the panel starts not reconstructing |
| ReconstructionPanel.Panel.BeginReconstruct | frontend/components/lab/ReconstructionPanel.tsx:20-56 | without an image: no request and no state change; with one: the panel is busy and the request is a full reconstruction of that image with both stripped edit layers; a click on an enabled button always sends a request; once a request is sent the button is disabled, so no second request goes out while one is outstanding |
| ReconstructionPanel.Panel.FinishReconstruct | frontend/components/lab/ReconstructionPanel.tsx:37-42 | the panel is no longer busy; a response stores its URL in the session and nothing else; a failure leaves the session unchanged |
| GradientCanvas.ScaleFactor | frontend/components/lab/GradientCanvas.tsx:134-136 | the scale is at most 1 and at most each container-to-image ratio, and it equals one of those three values |
| GradientCanvas.MapAxis | frontend/components/lab/GradientCanvas.tsx:183-185 | there is no point exactly when the canvas has no on-screen extent; otherwise the point scaled by that extent equals the client offset scaled by the buffer size |
| GradientCanvas.MapAxisInvertsDisplayScale | frontend/components/lab/GradientCanvas.tsx:183-185 | at any positive display scale, the left edge maps to 0, the right edge to the buffer width, and a point drawn d pixels in maps back to d |
| GradientCanvas.CanStartStroke | frontend/components/lab/GradientCanvas.tsx:151-168 | a stroke never starts on the magnitude view or with smooth; erase and sharpen start one on either editable tab |
| GradientCanvas.StrokeGating | frontend/components/lab/GradientCanvas.tsx:151-172 | a press starts a stroke exactly for erase or sharpen on an editable tab, or for the tab's own channel tool; smooth, the magnitude view and the other channel's tool never paint |
| GradientCanvas.BrushEffect | frontend/components/lab/GradientCanvas.tsx:193-232 | every brush effect is well formed, and every blend uses opacity strength × 0.1 |
| GradientCanvas.RoundBetween | frontend/components/lab/GradientCanvas.tsx:210-231 | quantising a composite that lies between two integers stays between them |
| GradientCanvas.MixBetween | frontend/components/lab/GradientCanvas.tsx:210-231 | source-over compositing lies between the old value and the painted colour |
| GradientCanvas.BlendStaysBetween | frontend/components/lab/GradientCanvas.tsx:210-231 | the quantised composite lies between the old value and the painted colour |
| GradientCanvas.Apply | frontend/components/lab/GradientCanvas.tsx:194-231 | an overwrite yields its colour; a blend moves the pixel toward its target and never past it |
| GradientCanvas.DiscWithinBox | frontend/components/lab/GradientCanvas.tsx:190-191 | every pixel of the brush disc lies within `radius` of the centre's integer part on both axes |
| GradientCanvas.ToolEffects | frontend/components/lab/GradientCanvas.tsx:194-231 | outside the disc nothing changes; erase sets a pixel to exactly 128; sharpen and unshifted dx or dy never lower a pixel; Shift never raises one |
| GradientCanvas.EraseThenAddStaysAboveNeutral | frontend/components/lab/GradientCanvas.tsx:194-231 | erase followed by an unshifted stroke leaves the disc at or above neutral |
| GradientCanvas.FirstStrokeOnNeutralLayer | frontend/components/lab/GradientCanvas.tsx:226-231 | on a neutral layer, one unshifted sample makes every disc pixel strictly brighter than 128 and leaves every other pixel at 128 |
| GradientCanvas.CommitInto | frontend/components/lab/GradientCanvas.tsx:37-42 | a commit changes only the edit slots; the dx tab writes the URL into the dx slot and the dy tab into the dy slot |
| GradientCanvas.CommitTargetsOwnSlot | frontend/components/lab/GradientCanvas.tsx:35-42 | a dx-tab commit writes only the dx slot; a dy-tab commit writes only the dy slot; a view-only commit changes nothing |
| GradientCanvas.FillRect | frontend/components/lab/GradientCanvas.tsx:111-114 | the part of the rectangle that lies on the buffer takes the colour; every other pixel keeps its value |
| GradientCanvas.DrawImageAtOrigin | frontend/components/lab/GradientCanvas.tsx:101-104 | the part of the image that lies on the buffer replaces its pixels; every other pixel keeps its value |
| GradientCanvas.InitEditLayer | frontend/components/lab/GradientCanvas.tsx:45-55 | a new buffer of the image's size, with every pixel neutral |
| GradientCanvas.PaintRow | frontend/components/lab/GradientCanvas.tsx:190-231 | one row of the brush box is painted; every other pixel keeps its value |
| GradientCanvas.ApplyBrush | frontend/components/lab/GradientCanvas.tsx:190-231 | every pixel of the buffer ends as the brush sample's effect on its old value: changed inside the disc, unchanged outside |
| GradientCanvas.EditCanvas.constructor | frontend/components/lab/GradientCanvas.tsx:13-32 | no edit layer, not drawing, scale 1, image size unknown, canvas at the HTML default 300×150 |
| GradientCanvas.EditCanvas.OnBackgroundLoaded | frontend/components/lab/GradientCanvas.tsx:129-146 | the scale is the fitted scale factor; the image size and the canvas size become the image's; the layer and drawing state are kept |
| GradientCanvas.EditCanvas.SyncEditLayer | frontend/components/lab/GradientCanvas.tsx:91-119 | before the size is known nothing happens; a missing layer is allocated neutral; a layer with a stored edit is left for the decoder; a layer without one is filled neutral over the image rectangle |
| GradientCanvas.EditCanvas.OnStoredEditDecoded | frontend/components/lab/GradientCanvas.tsx:100-107 | the decoded edit replaces the part of the layer it covers; the rest of the layer is unchanged |
| GradientCanvas.EditCanvas.BrushCentre | frontend/components/lab/GradientCanvas.tsx:180-185 | there is no brush centre exactly when the image size is unknown or the canvas has no on-screen width or height; otherwise each coordinate scaled by the on-screen extent equals the pointer offset scaled by the canvas size |
| GradientCanvas.EditCanvas.Draw | frontend/components/lab/GradientCanvas.tsx:179-235 | before the image size is known, or when the rectangle has no extent, nothing changes; otherwise one brush sample of the session's tool, size and strength is painted at the mapped point |
| GradientCanvas.EditCanvas.MouseDown | frontend/components/lab/GradientCanvas.tsx:151-172 | an incompatible tab or tool changes nothing; a compatible one starts a stroke and paints one sample |
| GradientCanvas.EditCanvas.MouseMove | frontend/components/lab/GradientCanvas.tsx:174-177 | a sample is painted only while a stroke is in progress |
| GradientCanvas.EditCanvas.MouseUp | frontend/components/lab/GradientCanvas.tsx:237-245 | drawing stops; a stroke in progress on an existing layer commits the layer's data URL into this tab's slot, which the tab then reads back as its current edit; otherwise the session is unchanged |
| GradientOps.ComputeForwardGradients | backend/core/gradient_ops.py:25-65 | the new dx and dy arrays hold the forward differences of the image along its rows and its columns, with 0 in the last column and the last row |
| GradientOps.ForwardDx | backend/core/gradient_ops.py:59 | dx has the image's shape; a pixel plus its dx is its right neighbour; the last column is 0 |
| GradientOps.ForwardDy | backend/core/gradient_ops.py:60 | dy has the image's shape; a pixel plus its dy is the pixel below it; the last row is 0 |
| GradientOps.Telescope | backend/core/gradient_ops.py:59-60 | the forward differences of a line add up to its last entry minus its first |
| GradientOps.DxRowTelescopes | backend/core/gradient_ops.py:59 | each row of dx sums to the row's last pixel minus its first |
| GradientOps.DyColumnTelescopes | backend/core/gradient_ops.py:60 | each column of dy is the forward difference of that column of the image, and it sums to the column's last pixel minus its first |
| GradientOps.ConstantImageHasZeroGradients | backend/core/gradient_ops.py:59-60 | a constant image has zero dx and zero dy everywhere |
| GradientOps.DeltaOfByte | backend/core/gradient_ops.py:110-111 | a byte v decodes to a delta in [-1, 1] with delta × 255 = 2v − 255 |
| GradientOps.DecodeField | backend/core/gradient_ops.py:106-111 | the decoded field has the raster's shape and every entry lies in [-1, 1] |
| GradientOps.DeltaOfByteStrictlyIncreasing | backend/core/gradient_ops.py:110-111 | a larger byte decodes to a larger delta, and conversely |
| GradientOps.DeltaOfByteLandmarks | backend/core/gradient_ops.py:110-111 | 0 decodes to -1 and 255 to +1; the canvas's neutral 128 decodes to 1/255, not 0; 127 decodes to -1/255 |
| GradientOps.Abs | backend/core/gradient_ops.py:74 | the absolute value is non-negative and is either v or -v |
| GradientOps.SeqMax | backend/core/gradient_ops.py:80 | the maximum bounds every entry of the line and is one of them |
| GradientOps.GridMax | backend/core/gradient_ops.py:74 | the maximum bounds every entry of the matrix and is one of them |
| GradientOps.AbsGrid | backend/core/gradient_ops.py:74 | the entrywise absolute value keeps the shape and is non-negative |
| GradientOps.ToByte | backend/core/gradient_ops.py:76 | values at or below 0 give 0; values at or above 255 give 255; values in between are truncated |
| GradientOps.NormalizeSigned | backend/core/gradient_ops.py:72-76 | the signed visual keeps the field's shape |
| GradientOps.NormalizeMagnitude | backend/core/gradient_ops.py:79-82 | the magnitude visual keeps the field's shape |
| GradientOps.HalfRatioBound | backend/core/gradient_ops.py:74-75 | a value bounded by m, divided by 2(m + 1e-6), lies strictly between -1/2 and 1/2 |
| GradientOps.SignedClipNeverEngages | backend/core/gradient_ops.py:74-76 | every signed level lies strictly between 0 and 255, so the clip never changes it |
| GradientOps.ZeroShowsAs127 | backend/core/gradient_ops.py:75-76 | a zero gradient is drawn as 127, one below the canvas's neutral 128 |
| GradientOps.NormalizeSignedMonotone | backend/core/gradient_ops.py:72-76 | the signed visual keeps the order of the field's entries |
| GradientOps.RatioBelowOne | backend/core/gradient_ops.py:80-81 | a value in [0, m] divided by m + 1e-6 lies in [0, 1) |
| GradientOps.MagnitudeClipNeverEngages | backend/core/gradient_ops.py:79-82 | every magnitude level of a non-negative field lies in [0, 255), so the clip never changes it |
| GradientOps.GradientMagnitude | backend/core/gradient_ops.py:68-69 | the magnitude keeps the shape and is non-negative |
| GradientOps.CreateGradientVisual | backend/core/gradient_ops.py:85-94 | the error is "unknown mode" exactly when the mode is none of dx, dy and mag; for a known mode the result is a visual exactly when the field is non-empty, and that visual keeps the shape; dx and dy use the signed normaliser on their own field, mag the magnitude normaliser on the gradient magnitude |
| GradientOps.VisualUsesOnlyItsChannel | backend/core/gradient_ops.py:86-89 | the dx visual depends on dx alone and the dy visual on dy alone |
| PoissonSolver.BoundaryGray | backend/core/poisson_solver.py:76-85 | the boundary grey image has the field's shape |
| PoissonSolver.AddBlock | backend/core/poisson_solver.py:72-73 | the block is added onto its window of the array; entries outside the window keep their values |
| PoissonSolver.SetBlock | backend/core/poisson_solver.py:91-95 | the block replaces its window of the array; entries outside the window keep their values |
| PoissonSolver.FromGrid | backend/core/poisson_solver.py:114 | a new array holding the matrix |
| PoissonSolver.Subtract | backend/core/poisson_solver.py:100 | a new array holding the entrywise difference |
| PoissonSolver.ClipToUnit | backend/core/poisson_solver.py:117 | a new array holding each entry clipped to [0, 1] |
| PoissonSolver.Laplacian5 | backend/core/poisson_solver.py:90-95 | the Laplacian of the boundary image is 0 on every border point |
| PoissonSolver.Residual | backend/core/poisson_solver.py:100 | on the border the right-hand side equals the divergence |
| PoissonSolver.Reconstruct | backend/core/poisson_solver.py:52-117 | an image with a side of at most 2 gives the boundary image itself; a larger one gives values all in [0, 1] |
| PoissonSolver.ComputeDivergence | backend/core/poisson_solver.py:71-73 | the new array is the divergence: backward differences of dx at the inner columns plus backward differences of dy at the inner rows |
| PoissonSolver.ComputeLaplacian | backend/core/poisson_solver.py:90-95 | the new array is the 5-point Laplacian at interior points and 0 on the border |
| PoissonSolver.ComputeResidual | backend/core/poisson_solver.py:100 | the new array is the divergence minus the Laplacian of the boundary image |
| PoissonSolver.MergeCorrection | backend/core/poisson_solver.py:114-117 | the boundary image with the correction added on the interior, clipped to [0, 1] |
| PoissonSolver.ReconstructImageFromGradients | backend/core/poisson_solver.py:52-117 | the array result equals the reconstruction function: the boundary image when either side is at most 2, otherwise the clipped boundary image plus the solve's interior correction |
| PoissonSolver.DivergenceOfForwardGradientsIsLaplacian | backend/api/routes_reconstruct.py:51-55 | at every interior point, the divergence of an image's forward gradients equals its 5-point Laplacian |
| PoissonSolver.ResidualVanishesWithoutEdits | backend/core/poisson_solver.py:97-100 | without edits, the interior of the right-hand side passed to the solver is zero |
| PoissonSolver.ReconstructWithoutEditsIsClippedOriginal | backend/core/poisson_solver.py:52-117 | reconstructing a single-channel image from its own forward gradients gives the image clipped to [0, 1], for any solve that maps zeros to zeros |
| PoissonSolver.SmallImageReturnsBoundary | backend/core/poisson_solver.py:105-106 | an image with a side of at most 2 is returned as the boundary image, without the clip |
| PoissonSolver.SolverPathKeepsBorder | backend/core/poisson_solver.py:114-117 | on the solver path, the border of the result is the clipped boundary image, and every entry lies in [0, 1] |
| PoissonSolver.DivergenceCornersAreZero | backend/core/poisson_solver.py:71-73 | the four corners of the divergence are always 0 |
| PoissonSolver.BoundaryGrayFacts | backend/core/poisson_solver.py:76-83 | the luma weights keep a grey colour's value; without a boundary image the boundary is all zeros |
| ReconstructRoute.AddScaledDelta | backend/api/routes_reconstruct.py:75 | the shape is kept; an entry rises exactly where the layer is 128 or brighter and falls exactly where it is 127 or darker; white adds 0.1 and black subtracts 0.1 |
| ReconstructRoute.ApplyEdit | backend/api/routes_reconstruct.py:57-97 | an absent or empty edit keeps the gradient; the error is a 400 INVALID_REQUEST exactly when the edit does not decode or does not have the image's shape; on success the result is the original plus a tenth of the decoded delta (`AddScaledDelta` of the decoded raster), so each entry changes by at most 0.1 |
| ReconstructRoute.ApplyEdits | backend/api/routes_reconstruct.py:57-97 | a dx failure is the answer whatever dy holds; when dx succeeds and dy fails, dy's 400 is the answer; success exactly when both channels succeed, with each channel's own result |
| ReconstructRoute.ReconstructLuma | backend/api/routes_reconstruct.py:26-104 | a missing image is a 404 IMAGE_NOT_FOUND, any other load failure a 500, both before any edit is decoded; for a loaded image an edit error is the answer, and otherwise the answer is the reconstruction of the edited forward gradients with the luma as boundary |
| ReconstructRoute.EditsStayInTheirChannel | backend/api/routes_reconstruct.py:75-87 | changing the dx edit never changes the final dy gradient |
| ReconstructRoute.UntouchedLayerShiftsGradient | backend/api/routes_reconstruct.py:75 | a transmitted layer that is all neutral 128 still adds 1/2550 to every gradient entry |
| ReconstructRoute.NoEditsReconstructsOriginal | backend/api/routes_reconstruct.py:51-104 | without edits, an image of any size whose luma lies in [0, 1] is reconstructed as that luma |
| ImageStore.MaxBytes | backend/core/image_store.py:21 | the size limit is 10 MiB, 10485760 bytes |
| ImageStore.ValidateSize | backend/core/image_store.py:20-23 | an error exactly when the content is longer than 10485760 bytes |
| ImageStore.ValidateDimensions | backend/core/image_store.py:12-17 | an error exactly when either side exceeds 4096 |
| ImageStore.SaveImage | backend/core/image_store.py:26-40 | oversized content is rejected; success exactly when the size fits, the content decodes, and the upright sides are at most 4096; success returns the new id with the upright size |
| ImageStore.SizeCheckPrecedesDecoding | backend/core/image_store.py:28-29 | an oversized upload is rejected whatever the decoder would do with it |
| ImageStore.GetImagePath | backend/core/image_store.py:43-44 | the path is the image directory followed by one file name, the id with a ".png" suffix |
| ImageStore.ImagePathInjective | backend/core/image_store.py:43-44 | distinct ids never share a path |

## Left out

- I/O and the environment become parameters:
  - `process.env.NEXT_PUBLIC_API_URL` (`env`);
  - the pointer position and the canvas's screen rectangle;
  - `toDataURL` (`toDataUrl`);
  - base64 and PNG decoding (`decode`, a `PngDecoder`, which only guarantees that a raster has the shape it reports);
  - the image library's decoding (`decode`);
  - `uuid.uuid4().hex` (`newId`);
  - the image store's load (`LoadOutcome`).
- File writes, directory creation and the response URL are not modelled:
  - in `save_image`;
  - in `save_gradient_visual`;
  - in steps 5-6 of the reconstruct route (the CbCr merge, the RGB conversion, the PNG write and the URL).
- The RGB-to-YCrCb conversion is not modelled; the route starts from the luma channel.
- `renderComposite` is not modelled, since it only affects the on-screen preview: the overlay blend and the image reloads it triggers.
- The order in which the asynchronous `onload` callbacks fire is not modelled; each callback is a separate method that can be called in any order.
- React re-renders, concurrency and re-entrancy are not modelled.
- Canvas anti-aliasing is not modelled: a pixel is painted when its integer coordinate lies in the disc, not by coverage of its centre.
- The 2D context's premultiplied 8-bit arithmetic is modelled as exact source-over compositing followed by round-half-up.
- The colour-to-grey conversion (`convert("L")`) is not modelled; the edit layer holds one grey value per pixel, which is what every tool paints.
- `_solve_poisson_dst1`, `_dst1` and `_idst1` are a parameter of type `DstSolve`. It promises only the shape of the result and that zeros map to zeros. The cosine denominators and the 1e-10 shift are not modelled.
- `np.sqrt` is a parameter of type `SquareRoot`, which promises only a non-negative result on non-negative input.
- float32 and float64 arithmetic is modelled as exact real arithmetic, with no rounding and no NaN or infinity.
- `compute_gradients` (Sobel), `synthetic_detector`, the other routes, the API client and the presentation components are not part of this model.
- `compute_forward_gradients`: the `ndim > 2` branch, which averages the colour channels, is not modelled; the model takes a two-dimensional image as the route passes it.
- `load_image`, `load_image_pil` and `encode_gradient_to_base64_png` are not modelled beyond the `LoadOutcome` the route receives.
- Exception message texts are modelled as opaque strings.
- An id containing "/" is not modelled; `GetImagePath` appends it as a single file name.
- The brush ranges from frontend/components/lab/GradientEditControls.tsx:74-76 and :90-92 (size 1..100, strength 0.1..1.0) are preconditions of the drawing methods (`BrushSettingsInRange`), not session invariants.
- GradientCanvas.MapAxis: a zero-width screen rectangle gives `None`, and drawing then changes nothing. JavaScript would compute an infinite or NaN coordinate, which the canvas ignores.
- GradientCanvas.Apply: states that a blend moves toward its target and not past it, not the exact quantised value the browser computes.
- GradientOps.NormalizeSigned: its contract states only the shape. The per-entry behaviour is stated by SignedClipNeverEngages, ZeroShowsAs127 and NormalizeSignedMonotone.
- GradientOps.NormalizeMagnitude: requires a non-negative field, which is the only field `create_gradient_visual` passes to it. Its contract states only the shape; MagnitudeClipNeverEngages states the range.
- PoissonSolver.ReconstructImageFromGradients: proved equal to `Reconstruct` for any `DstSolve`. No statement is made about the Poisson equation being solved, since the DST-I transform is not modelled.
- ImageStore.SaveImage: the decode step stands for opening the image and converting it to RGB; the EXIF transpose is applied by the model to what it returns. Only the size and the EXIF orientation of the decoded picture are modelled.

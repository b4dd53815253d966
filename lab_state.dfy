/** The lab page's session record (frontend/app/lab/providers.tsx): the loaded
    image, the active tool and brush settings, the reconstructed-image URL and
    the two committed edit layers, one per derivative channel. */
module LabSession {
  import opened Common

  /** The five brush tools the session can hold. */
  datatype EditMode = Dx | Dy | Erase | Sharpen | Smooth

  datatype ImageMeta = ImageMeta(width: int, height: int)

  /** The backend's answer to `GET /api/gradients`. */
  datatype GradientsResponse = GradientsResponse(
    imageId: string, width: int, height: int,
    dxUrl: string, dyUrl: string, magnitudeUrl: string)

  /** The value of every field of the session at one moment. The edit slots
      hold the data URLs committed by the canvases. */
  datatype LabSnapshot = LabSnapshot(
    imageId: Option<string>,
    imageMeta: Option<ImageMeta>,
    gradients: Option<GradientsResponse>,
    editMode: EditMode,
    brushSize: int,
    brushStrength: real,
    reconstructedUrl: Option<string>,
    dxEditDataUrl: Option<string>,
    dyEditDataUrl: Option<string>)

  /** The `useState` initial values. */
  const InitialSnapshot := LabSnapshot(None, None, None, Dx, 20, 0.5, None, None, None)

  /** The session after `resetEdits`. */
  function ResetEditsOf(s: LabSnapshot): LabSnapshot {
    s.(dxEditDataUrl := None, dyEditDataUrl := None)
  }

  /** `resetEdits` empties exactly the two edit slots: the image, the
      gradients, the reconstructed URL, the tool and brush settings stay. */
  lemma ResetEditsClearsOnlySlots(s: LabSnapshot)
    ensures ResetEditsOf(s).dxEditDataUrl == None && ResetEditsOf(s).dyEditDataUrl == None
    ensures ResetEditsOf(s).imageId == s.imageId && ResetEditsOf(s).imageMeta == s.imageMeta
    ensures ResetEditsOf(s).gradients == s.gradients && ResetEditsOf(s).reconstructedUrl == s.reconstructedUrl
    ensures ResetEditsOf(s).editMode == s.editMode && ResetEditsOf(s).brushSize == s.brushSize
    ensures ResetEditsOf(s).brushStrength == s.brushStrength
  {
  }

  lemma ResetEditsIdempotent(s: LabSnapshot)
    ensures ResetEditsOf(ResetEditsOf(s)) == ResetEditsOf(s)
  {
  }

  /** The `LabProvider` state: one field per `useState` hook, one method per
      setter. */
  class LabState {
    var imageId: Option<string>
    var imageMeta: Option<ImageMeta>
    var gradients: Option<GradientsResponse>
    var editMode: EditMode
    var brushSize: int
    var brushStrength: real
    var reconstructedUrl: Option<string>
    var dxEditDataUrl: Option<string>
    var dyEditDataUrl: Option<string>

    function State(): LabSnapshot
      reads this
    {
      LabSnapshot(imageId, imageMeta, gradients, editMode, brushSize, brushStrength,
                  reconstructedUrl, dxEditDataUrl, dyEditDataUrl)
    }

    constructor ()
      ensures State() == InitialSnapshot
    {
      imageId, imageMeta, gradients := None, None, None;
      editMode, brushSize, brushStrength := Dx, 20, 0.5;
      reconstructedUrl, dxEditDataUrl, dyEditDataUrl := None, None, None;
    }

    method SetImageId(id: string)
      modifies this
      ensures State() == old(State()).(imageId := Some(id))
    {
      imageId := Some(id);
    }

    method SetImageMeta(meta: ImageMeta)
      modifies this
      ensures State() == old(State()).(imageMeta := Some(meta))
    {
      imageMeta := Some(meta);
    }

    method SetGradients(g: GradientsResponse)
      modifies this
      ensures State() == old(State()).(gradients := Some(g))
    {
      gradients := Some(g);
    }

    method SetEditMode(mode: EditMode)
      modifies this
      ensures State() == old(State()).(editMode := mode)
    {
      editMode := mode;
    }

    method SetBrushSize(size: int)
      modifies this
      ensures State() == old(State()).(brushSize := size)
    {
      brushSize := size;
    }

    method SetBrushStrength(strength: real)
      modifies this
      ensures State() == old(State()).(brushStrength := strength)
    {
      brushStrength := strength;
    }

    method SetReconstructedUrl(url: Option<string>)
      modifies this
      ensures State() == old(State()).(reconstructedUrl := url)
    {
      reconstructedUrl := url;
    }

    method SetDxEditDataUrl(url: Option<string>)
      modifies this
      ensures State() == old(State()).(dxEditDataUrl := url)
    {
      dxEditDataUrl := url;
    }

    method SetDyEditDataUrl(url: Option<string>)
      modifies this
      ensures State() == old(State()).(dyEditDataUrl := url)
    {
      dyEditDataUrl := url;
    }

    method ResetEdits()
      modifies this
      ensures State() == ResetEditsOf(old(State()))
    {
      dxEditDataUrl := None;
      dyEditDataUrl := None;
    }

    /** A successful upload in the image loader sets the new image id, its
        dimensions and its gradients, one setter after another; the edit slots
        are not touched, so edits made on the previous image survive. */
    method LoadNewImage(id: string, meta: ImageMeta, g: GradientsResponse)
      modifies this
      ensures State() == old(State()).(imageId := Some(id), imageMeta := Some(meta), gradients := Some(g))
      ensures dxEditDataUrl == old(dxEditDataUrl) && dyEditDataUrl == old(dyEditDataUrl)
    {
      SetImageId(id);
      SetImageMeta(meta);
      SetGradients(g);
    }
  }
}

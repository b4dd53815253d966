/** The brush-edit layer of one gradient tab
    (frontend/components/lab/GradientCanvas.tsx): an 8-bit greyscale buffer
    the size of the gradient image, neutral at 128, painted in place by the
    brush tools and committed into the session when the stroke ends. */
module GradientCanvas {
  import opened Common
  import opened Grids
  import opened LabSession

  /** The buffer value that stands for "no change" to the gradient. */
  const Neutral: Byte := 128

  /** The canvas element's size before any image is loaded (the HTML default). */
  const DefaultCanvasWidth: nat := 300
  const DefaultCanvasHeight: nat := 150

  /** Which tab the canvas sits in (the `mode` prop). */
  datatype CanvasMode = DxTab | DyTab | ViewOnly

  datatype Size = Size(width: nat, height: nat)

  /** `canvas.getBoundingClientRect()`: where the canvas is drawn on screen. */
  datatype Rect = Rect(left: real, top: real, width: real, height: real)

  // ---------------------------------------------------------------------
  // Display scale and pointer mapping
  // ---------------------------------------------------------------------

  /** `Math.min(containerWidth / img.width, containerHeight / img.height, 1)`:
      the image is fitted to its container and never enlarged. */
  function ScaleFactor(containerWidth: real, containerHeight: real, imageWidth: nat, imageHeight: nat): (s: real)
    requires imageWidth > 0 && imageHeight > 0
    ensures s <= 1.0
    ensures s <= containerWidth / imageWidth as real && s <= containerHeight / imageHeight as real
    ensures s == 1.0 || s == containerWidth / imageWidth as real || s == containerHeight / imageHeight as real
  {
    MinReal(MinReal(containerWidth / imageWidth as real, containerHeight / imageHeight as real), 1.0)
  }

  /** One axis of `(e.clientX - rect.left) * (canvas.width / rect.width)`.
      When the canvas has no on-screen extent yet the JavaScript result is
      infinite or NaN; `arc` then adds nothing to the path and the fill paints
      nothing, so the model returns `None` ("no point"). */
  function MapAxis(client: real, origin: real, canvasExtent: nat, rectExtent: real): (p: Option<real>)
    requires rectExtent >= 0.0
    ensures rectExtent == 0.0 <==> p.None?
    ensures p.Some? ==> p.value * rectExtent == (client - origin) * canvasExtent as real
  {
    if rectExtent == 0.0 then None
    else Some((client - origin) * (canvasExtent as real / rectExtent))
  }

  lemma PositiveProduct(a: real, b: real)
    requires a > 0.0 && b > 0.0
    ensures a * b > 0.0
  {
  }

  lemma Reassociate(a: real, b: real, c: real)
    ensures a * b * c == a * (c * b)
  {
  }

  lemma CancelFactor(x: real, y: real, k: real)
    requires k != 0.0 && x * k == y * k
    ensures x == y
  {
  }

  /** The mapping inverts the display scaling: the left edge goes to 0, the
      right edge to the buffer's width, and a point drawn `d` buffer pixels
      from the edge at any positive scale maps back to `d`. */
  lemma MapAxisInvertsDisplayScale(origin: real, canvasExtent: nat, scale: real, d: real)
    requires canvasExtent > 0 && scale > 0.0
    ensures MapAxis(origin, origin, canvasExtent, canvasExtent as real * scale) == Some(0.0)
    ensures MapAxis(origin + canvasExtent as real * scale, origin, canvasExtent, canvasExtent as real * scale)
            == Some(canvasExtent as real)
    ensures MapAxis(origin + d * scale, origin, canvasExtent, canvasExtent as real * scale) == Some(d)
  {
    var n := canvasExtent as real;
    var k := n * scale;
    PositiveProduct(n, scale);
    var p0 := MapAxis(origin, origin, canvasExtent, k).value;
    CancelFactor(p0, 0.0, k);
    var p1 := MapAxis(origin + k, origin, canvasExtent, k).value;
    assert (origin + k - origin) * n == n * k;
    CancelFactor(p1, n, k);
    var p2 := MapAxis(origin + d * scale, origin, canvasExtent, k).value;
    assert origin + d * scale - origin == d * scale;
    Reassociate(d, scale, n);
    CancelFactor(p2, d, k);
    assert k == canvasExtent as real * scale;
  }

  // ---------------------------------------------------------------------
  // Tool gating and brush effects
  // ---------------------------------------------------------------------

  /** `handleMouseDown`'s guards: whether a press on this tab starts a stroke
      with the given tool. */
  predicate CanStartStroke(mode: CanvasMode, tool: EditMode)
    ensures CanStartStroke(mode, tool) ==> mode != ViewOnly && tool != Smooth
    ensures mode != ViewOnly && (tool == Erase || tool == Sharpen) ==> CanStartStroke(mode, tool)
  {
    if mode == ViewOnly then false
    else if mode == DxTab && tool != Dx && tool != Erase && tool != Sharpen then false
    else if mode == DyTab && tool != Dy && tool != Erase && tool != Sharpen then false
    else assert mode.DxTab? || mode.DyTab?; true
  }

  /** A stroke starts exactly when the tool is channel-agnostic (erase,
      sharpen) on an editable tab, or is the tab's own channel tool; so the
      magnitude view, `smooth` and a cross-channel tool never paint. */
  lemma StrokeGating(mode: CanvasMode, tool: EditMode)
    ensures CanStartStroke(mode, tool) <==>
      || (mode != ViewOnly && (tool == Erase || tool == Sharpen))
      || (mode == DxTab && tool == Dx)
      || (mode == DyTab && tool == Dy)
    ensures tool == Smooth || mode == ViewOnly ==> !CanStartStroke(mode, tool)
    ensures (mode == DxTab && tool == Dy) || (mode == DyTab && tool == Dx) ==> !CanStartStroke(mode, tool)
  {
  }

  /** What one brush sample does to a pixel under the disc: overwrite with a
      colour, or composite a colour over it at opacity `alpha`. */
  datatype Effect = Overwrite(value: Byte) | BlendToward(target: Byte, alpha: real)

  predicate ValidEffect(e: Effect) {
    e.BlendToward? ==> 0.0 <= e.alpha <= 1.0
  }

  /** The fill style `draw` chooses: erase paints opaque rgb(128,128,128);
      sharpen paints white at opacity strength*0.1; every other tool paints
      white, or black while Shift is held, at the same opacity. */
  function BrushEffect(tool: EditMode, shift: bool, strength: real): (e: Effect)
    requires 0.1 <= strength <= 1.0
    ensures ValidEffect(e)
    ensures e.BlendToward? ==> e.alpha == strength * 0.1
  {
    if tool == Erase then Overwrite(Neutral)
    else if tool == Sharpen then BlendToward(255, strength * 0.1)
    else if shift then BlendToward(0, strength * 0.1)
    else BlendToward(255, strength * 0.1)
  }

  /** Quantisation of a composited value back to 8 bits. */
  function RoundHalfUp(v: real): int {
    (v + 0.5).Floor
  }

  /** Rounding a value that lies between two integers stays between them. */
  lemma RoundBetween(x: real, lo: int, hi: int)
    requires lo as real <= x <= hi as real
    ensures lo <= RoundHalfUp(x) <= hi
  {
  }

  /** Source-over compositing of colour `t` at opacity `a` onto an opaque
      value `v`. */
  function Mix(a: real, t: real, v: real): real {
    a * t + (1.0 - a) * v
  }

  /** The composite lies between the old value and the painted colour. */
  lemma MixBetween(a: real, t: real, v: real)
    requires 0.0 <= a <= 1.0
    ensures v <= t ==> v <= Mix(a, t, v) <= t
    ensures t <= v ==> t <= Mix(a, t, v) <= v
  {
    var gap := t - v;
    assert Mix(a, t, v) == v + a * gap;
    assert gap - a * gap == (1.0 - a) * gap;
  }

  /** The rounded composite lies between the old value and the painted colour. */
  lemma BlendStaysBetween(t: Byte, a: real, v: Byte)
    requires 0.0 <= a <= 1.0
    ensures var r := RoundHalfUp(Mix(a, t as real, v as real));
      && (v <= t ==> v <= r <= t)
      && (t <= v ==> t <= r <= v)
  {
    MixBetween(a, t as real, v as real);
    if v <= t {
      RoundBetween(Mix(a, t as real, v as real), v, t);
    } else {
      RoundBetween(Mix(a, t as real, v as real), t, v);
    }
  }

  /** Source-over compositing of one brush sample onto an opaque pixel: an
      overwrite yields its colour; a blend moves the pixel toward the target
      and never past it. */
  function Apply(e: Effect, v: Byte): (r: Byte)
    requires ValidEffect(e)
    ensures e.Overwrite? ==> r == e.value
    ensures e.BlendToward? && v <= e.target ==> v <= r <= e.target
    ensures e.BlendToward? && e.target <= v ==> e.target <= r <= v
  {
    match e
    case Overwrite(c) => c
    case BlendToward(t, a) =>
      BlendStaysBetween(t, a, v);
      RoundHalfUp(Mix(a, t as real, v as real))
  }

  /** The brush disc: pixel (px, py) is painted by a sample at (cx, cy) of
      the given radius. */
  predicate InDisc(px: int, py: int, cx: real, cy: real, radius: nat) {
    var dx := px as real - cx;
    var dy := py as real - cy;
    dx * dx + dy * dy <= (radius * radius) as real
  }

  /** The value of pixel (px, py), formerly `v`, after one brush sample. */
  function Painted(v: Byte, px: int, py: int, cx: real, cy: real, radius: nat, e: Effect): Byte
    requires ValidEffect(e)
  {
    if InDisc(px, py, cx, cy, radius) then Apply(e, v) else v
  }

  /** On one axis, a point of the disc lies within `radius` of the centre's
      integer part. */
  lemma SquareGrows(d: real, r: real)
    requires 0.0 <= r < d
    ensures r * r < d * d
  {
    PositiveProduct(d, d - r);
    var lower := r * (d - r);
    var upper := d * (d - r);
    assert lower >= 0.0;
    assert lower + upper == d * d - r * r;
  }

  lemma AxisWithinBox(p: int, c: real, radius: nat)
    requires (p as real - c) * (p as real - c) <= (radius * radius) as real
    ensures c.Floor - radius <= p <= c.Floor + radius
  {
    var d := p as real - c;
    var r := radius as real;
    assert (radius * radius) as real == r * r;
    if d > r {
      SquareGrows(d, r);
    } else if -d > r {
      SquareGrows(-d, r);
    }
  }

  /** Every pixel of the disc lies in the bounding box the brush loop visits. */
  lemma DiscWithinBox(px: int, py: int, cx: real, cy: real, radius: nat)
    ensures InDisc(px, py, cx, cy, radius) ==>
      && cx.Floor - radius <= px <= cx.Floor + radius
      && cy.Floor - radius <= py <= cy.Floor + radius
  {
    if InDisc(px, py, cx, cy, radius) {
      var dx := px as real - cx;
      var dy := py as real - cy;
      assert dx * dx >= 0.0 && dy * dy >= 0.0;
      AxisWithinBox(px, cx, radius);
      AxisWithinBox(py, cy, radius);
    }
  }

  /** Erase restores the exact neutral value whatever the pixel held; the
      additive tools (dx, dy and sharpen) never lower a pixel and Shift never
      raises one; outside the disc nothing changes. */
  lemma ToolEffects(v: Byte, px: int, py: int, cx: real, cy: real, radius: nat,
                    tool: EditMode, shift: bool, strength: real)
    requires 0.1 <= strength <= 1.0
    ensures var p := Painted(v, px, py, cx, cy, radius, BrushEffect(tool, shift, strength));
      && (!InDisc(px, py, cx, cy, radius) ==> p == v)
      && (InDisc(px, py, cx, cy, radius) && tool == Erase ==> p == Neutral)
      && (tool == Sharpen ==> p >= v)
      && (tool != Erase && tool != Sharpen && !shift ==> p >= v)
      && (tool != Erase && tool != Sharpen && shift ==> p <= v)
  {
  }

  /** Erase followed by a non-inverted dx stroke over the same disc leaves
      every pixel of the disc at or above neutral. */
  lemma EraseThenAddStaysAboveNeutral(v: Byte, px: int, py: int, cx: real, cy: real, radius: nat,
                                      strength: real)
    requires 0.1 <= strength <= 1.0
    requires InDisc(px, py, cx, cy, radius)
    ensures Painted(Painted(v, px, py, cx, cy, radius, BrushEffect(Erase, false, strength)),
                    px, py, cx, cy, radius, BrushEffect(Dx, false, strength)) >= Neutral
  {
  }

  /** On a neutral layer a single non-inverted dx sample makes every disc
      pixel strictly brighter than neutral, at any strength the controls
      allow, and leaves every other pixel at exactly neutral. */
  lemma FirstStrokeOnNeutralLayer(px: int, py: int, cx: real, cy: real, radius: nat, strength: real)
    requires 0.1 <= strength <= 1.0
    ensures InDisc(px, py, cx, cy, radius) ==>
      Painted(Neutral, px, py, cx, cy, radius, BrushEffect(Dx, false, strength)) > Neutral
    ensures !InDisc(px, py, cx, cy, radius) ==>
      Painted(Neutral, px, py, cx, cy, radius, BrushEffect(Dx, false, strength)) == Neutral
  {
    var a := strength * 0.1;
    assert a * 255.0 + (1.0 - a) * 128.0 == 128.0 + a * 127.0;
    assert a * 127.0 >= 1.27;
  }

  // ---------------------------------------------------------------------
  // In-place operations on the edit buffer
  // ---------------------------------------------------------------------

  function MinInt(a: int, b: int): int { if a <= b then a else b }
  function MaxInt(a: int, b: int): int { if a >= b then a else b }

  /** `ctx.fillRect(0, 0, width, height)` with an opaque colour: the part of
      the rectangle that lies on the buffer takes the colour. */
  method FillRect(layer: array2<Byte>, width: nat, height: nat, colour: Byte)
    modifies layer
    ensures forall y, x :: 0 <= y < layer.Length0 && 0 <= x < layer.Length1 ==>
      layer[y, x] == (if y < height && x < width then colour else old(layer[y, x]))
  {
    var rows := MinInt(height, layer.Length0);
    var cols := MinInt(width, layer.Length1);
    var y := 0;
    while y < rows
      invariant 0 <= y <= rows
      invariant forall i, j :: 0 <= i < layer.Length0 && 0 <= j < layer.Length1 ==>
        layer[i, j] == (if i < y && j < cols then colour else old(layer[i, j]))
    {
      var x := 0;
      while x < cols
        invariant 0 <= x <= cols
        invariant forall i, j :: 0 <= i < layer.Length0 && 0 <= j < layer.Length1 ==>
          layer[i, j] == (if (i < y && j < cols) || (i == y && j < x) then colour else old(layer[i, j]))
      {
        layer[y, x] := colour;
        x := x + 1;
      }
      y := y + 1;
    }
  }

  /** `ctx.drawImage(img, 0, 0)` of an opaque image: the part of the image
      that lies on the buffer replaces the buffer's pixels. */
  method DrawImageAtOrigin(layer: array2<Byte>, img: Grid<Byte>, imgHeight: nat, imgWidth: nat)
    requires IsMatrix(img, imgHeight, imgWidth)
    modifies layer
    ensures forall y, x :: 0 <= y < layer.Length0 && 0 <= x < layer.Length1 ==>
      layer[y, x] == (if y < imgHeight && x < imgWidth then img[y][x] else old(layer[y, x]))
  {
    var rows := MinInt(imgHeight, layer.Length0);
    var cols := MinInt(imgWidth, layer.Length1);
    var y := 0;
    while y < rows
      invariant 0 <= y <= rows
      invariant forall i, j :: 0 <= i < layer.Length0 && 0 <= j < layer.Length1 ==>
        layer[i, j] == (if i < y && j < cols then img[i][j] else old(layer[i, j]))
    {
      var x := 0;
      while x < cols
        invariant 0 <= x <= cols
        invariant forall i, j :: 0 <= i < layer.Length0 && 0 <= j < layer.Length1 ==>
          layer[i, j] == (if (i < y && j < cols) || (i == y && j < x) then img[i][j] else old(layer[i, j]))
      {
        layer[y, x] := img[y][x];
        x := x + 1;
      }
      y := y + 1;
    }
  }

  /** `initEditLayer(width, height)`: a new buffer of the image's size,
      filled with neutral grey. */
  method InitEditLayer(width: nat, height: nat) returns (layer: array2<Byte>)
    ensures fresh(layer)
    ensures layer.Length0 == height && layer.Length1 == width
    ensures forall y, x :: 0 <= y < height && 0 <= x < width ==> layer[y, x] == Neutral
  {
    layer := new Byte[height, width];
    FillRect(layer, width, height, Neutral);
  }

  /** One row of the brush's bounding box. */
  method PaintRow(layer: array2<Byte>, y: nat, x0: nat, x1: nat,
                  cx: real, cy: real, radius: nat, e: Effect)
    requires y < layer.Length0 && x0 <= x1 <= layer.Length1
    requires ValidEffect(e)
    modifies layer
    ensures forall i, j :: 0 <= i < layer.Length0 && 0 <= j < layer.Length1 ==>
      layer[i, j] == (if i == y && x0 <= j < x1 then Painted(old(layer[i, j]), j, i, cx, cy, radius, e)
                      else old(layer[i, j]))
  {
    var x := x0;
    while x < x1
      invariant x0 <= x <= x1
      invariant forall i, j :: 0 <= i < layer.Length0 && 0 <= j < layer.Length1 ==>
        layer[i, j] == (if i == y && x0 <= j < x then Painted(old(layer[i, j]), j, i, cx, cy, radius, e)
                        else old(layer[i, j]))
    {
      layer[y, x] := Painted(layer[y, x], x, y, cx, cy, radius, e);
      x := x + 1;
    }
  }

  /** One brush sample (`ctx.arc(x, y, brushSize)` then `ctx.fill()`): every
      pixel of the disc is painted with the effect, every other pixel keeps
      its value. The loop visits only the disc's bounding box. */
  method ApplyBrush(layer: array2<Byte>, cx: real, cy: real, radius: nat, e: Effect)
    requires ValidEffect(e)
    modifies layer
    ensures forall y, x :: 0 <= y < layer.Length0 && 0 <= x < layer.Length1 ==>
      layer[y, x] == Painted(old(layer[y, x]), x, y, cx, cy, radius, e)
  {
    var x0 := MinInt(layer.Length1, MaxInt(0, cx.Floor - radius));
    var x1 := MaxInt(x0, MinInt(layer.Length1, cx.Floor + radius + 1));
    var y0 := MinInt(layer.Length0, MaxInt(0, cy.Floor - radius));
    var y1 := MaxInt(y0, MinInt(layer.Length0, cy.Floor + radius + 1));
    var y := y0;
    while y < y1
      invariant y0 <= y <= y1
      invariant forall i, j :: 0 <= i < layer.Length0 && 0 <= j < layer.Length1 ==>
        layer[i, j] == (if y0 <= i < y && x0 <= j < x1 then Painted(old(layer[i, j]), j, i, cx, cy, radius, e)
                        else old(layer[i, j]))
    {
      PaintRow(layer, y, x0, x1, cx, cy, radius, e);
      y := y + 1;
    }
    forall i, j | 0 <= i < layer.Length0 && 0 <= j < layer.Length1
      ensures layer[i, j] == Painted(old(layer[i, j]), j, i, cx, cy, radius, e)
    {
      DiscWithinBox(j, i, cx, cy, radius);
    }
  }

  /** What one brush sample did to the buffer: nothing without a centre,
      otherwise every pixel painted with the effect at that centre. */
  twostate predicate BrushSampled(layer: array2<Byte>, centre: Option<(real, real)>, radius: nat, e: Effect)
    reads layer
    requires ValidEffect(e)
  {
    match centre
    case None => unchanged(layer)
    case Some(c) =>
      forall y, x :: 0 <= y < layer.Length0 && 0 <= x < layer.Length1 ==>
        layer[y, x] == Painted(old(layer[y, x]), x, y, c.0, c.1, radius, e)
  }

  /** The brush controls' ranges: size 1..100 pixels, strength 0.1..1.0. */
  predicate BrushSettingsInRange(s: LabSnapshot) {
    1 <= s.brushSize <= 100 && 0.1 <= s.brushStrength <= 1.0
  }

  /** The session after a commit from a canvas on the given tab: the dx tab
      writes the dx slot, the dy tab the dy slot, the magnitude view nothing. */
  function CommitInto(s: LabSnapshot, mode: CanvasMode, url: string): (r: LabSnapshot)
    ensures r.(dxEditDataUrl := s.dxEditDataUrl, dyEditDataUrl := s.dyEditDataUrl) == s
    ensures mode == DxTab ==> r.dxEditDataUrl == Some(url)
    ensures mode == DyTab ==> r.dyEditDataUrl == Some(url)
  {
    match mode
    case DxTab => s.(dxEditDataUrl := Some(url))
    case DyTab => s.(dyEditDataUrl := Some(url))
    case ViewOnly => s
  }

  /** A commit from the dx tab writes only the dx slot, one from the dy tab
      only the dy slot, and one from the magnitude view nothing. */
  lemma CommitTargetsOwnSlot(s: LabSnapshot, mode: CanvasMode, url: string)
    ensures mode == DxTab ==> CommitInto(s, mode, url) == s.(dxEditDataUrl := Some(url))
    ensures mode == DyTab ==> CommitInto(s, mode, url) == s.(dyEditDataUrl := Some(url))
    ensures mode != DxTab ==> CommitInto(s, mode, url).dxEditDataUrl == s.dxEditDataUrl
    ensures mode != DyTab ==> CommitInto(s, mode, url).dyEditDataUrl == s.dyEditDataUrl
    ensures mode == ViewOnly ==> CommitInto(s, mode, url) == s
  {
  }

  /** One `GradientCanvas` instance: its edit buffer (`editLayerRef`), the
      stroke flag, the fit scale, the loaded image's size and the canvas
      element's size, plus the session it reads settings from and commits to. */
  class EditCanvas {
    const mode: CanvasMode
    const lab: LabState
    var layer: array2?<Byte>
    var isDrawing: bool
    var scale: real
    var imageSize: Option<Size>
    var canvasWidth: nat
    var canvasHeight: nat

    constructor (mode: CanvasMode, lab: LabState)
      ensures this.mode == mode && this.lab == lab
      ensures layer == null && !isDrawing && scale == 1.0 && imageSize == None
      ensures canvasWidth == DefaultCanvasWidth && canvasHeight == DefaultCanvasHeight
    {
      this.mode := mode;
      this.lab := lab;
      layer := null;
      isDrawing := false;
      scale := 1.0;
      imageSize := None;
      canvasWidth, canvasHeight := DefaultCanvasWidth, DefaultCanvasHeight;
    }

    /** `currentEditUrl`: the committed edit of this tab's channel. */
    function CurrentEditUrl(): (r: Option<string>)
      reads this, lab
      ensures r.Some? ==> mode != ViewOnly
      ensures mode == DxTab ==> r == lab.dxEditDataUrl
      ensures mode == DyTab ==> r == lab.dyEditDataUrl
    {
      match mode
      case DxTab => lab.dxEditDataUrl
      case DyTab => lab.dyEditDataUrl
      case ViewOnly => None
    }

    /** The background image's `onload`: fit scale, image size and canvas
      size are set; the edit buffer is not touched. */
    method OnBackgroundLoaded(imageWidth: nat, imageHeight: nat, containerWidth: real, containerHeight: real)
      requires imageWidth > 0 && imageHeight > 0
      modifies this
      ensures scale == ScaleFactor(containerWidth, containerHeight, imageWidth, imageHeight)
      ensures imageSize == Some(Size(imageWidth, imageHeight))
      ensures canvasWidth == imageWidth && canvasHeight == imageHeight
      ensures layer == old(layer) && isDrawing == old(isDrawing)
    {
      scale := ScaleFactor(containerWidth, containerHeight, imageWidth, imageHeight);
      imageSize := Some(Size(imageWidth, imageHeight));
      canvasWidth, canvasHeight := imageWidth, imageHeight;
    }

    /** The edit-layer effect: once the image size is known, allocate the
      buffer if there is none yet (an existing buffer is kept whatever its
      size), then either leave it for the stored edit to be decoded into it
      or, with no stored edit, paint the image's rectangle neutral. */
    method SyncEditLayer()
      modifies this, layer
      ensures imageSize == old(imageSize) && isDrawing == old(isDrawing) && scale == old(scale)
      ensures canvasWidth == old(canvasWidth) && canvasHeight == old(canvasHeight)
      ensures old(layer) != null ==> layer == old(layer)
      ensures imageSize.None? ==> layer == old(layer) && (layer != null ==> unchanged(layer))
      ensures imageSize.Some? && old(layer) == null ==>
        && layer != null && fresh(layer)
        && layer.Length0 == imageSize.value.height && layer.Length1 == imageSize.value.width
        && forall y, x :: 0 <= y < layer.Length0 && 0 <= x < layer.Length1 ==> layer[y, x] == Neutral
      ensures imageSize.Some? && old(layer) != null && CurrentEditUrl().Some? ==> unchanged(layer)
      ensures imageSize.Some? && old(layer) != null && CurrentEditUrl().None? ==>
        forall y, x :: 0 <= y < layer.Length0 && 0 <= x < layer.Length1 ==>
          layer[y, x] == (if y < imageSize.value.height && x < imageSize.value.width then Neutral
                          else old(layer[y, x]))
    {
      if imageSize.None? {
        return;
      }
      var size := imageSize.value;
      if layer == null {
        layer := InitEditLayer(size.width, size.height);
      }
      if CurrentEditUrl().None? {
        FillRect(layer, size.width, size.height, Neutral);
      }
    }

    /** The stored edit's `onload`: the decoded image is drawn over the
      buffer at the origin. */
    method OnStoredEditDecoded(img: Grid<Byte>, imgHeight: nat, imgWidth: nat)
      requires IsMatrix(img, imgHeight, imgWidth)
      modifies layer
      ensures layer != null ==> forall y, x :: 0 <= y < layer.Length0 && 0 <= x < layer.Length1 ==>
        layer[y, x] == (if y < imgHeight && x < imgWidth then img[y][x] else old(layer[y, x]))
    {
      if layer != null {
        DrawImageAtOrigin(layer, img, imgHeight, imgWidth);
      }
    }

    /** The buffer point under the pointer: none before the image size is
      known or while the canvas has no on-screen size. */
    function BrushCentre(clientX: real, clientY: real, rect: Rect): (c: Option<(real, real)>)
      reads this
      requires rect.width >= 0.0 && rect.height >= 0.0
      ensures c.None? <==> imageSize.None? || rect.width == 0.0 || rect.height == 0.0
      ensures c.Some? ==> c.value.0 * rect.width == (clientX - rect.left) * canvasWidth as real
      ensures c.Some? ==> c.value.1 * rect.height == (clientY - rect.top) * canvasHeight as real
    {
      var x := MapAxis(clientX, rect.left, canvasWidth, rect.width);
      var y := MapAxis(clientY, rect.top, canvasHeight, rect.height);
      if imageSize.Some? && x.Some? && y.Some? then Some((x.value, y.value)) else None
    }

    /** The brush sample `draw` paints with the session's tool, size and strength. */
    function SessionEffect(shift: bool): Effect
      reads lab
      requires BrushSettingsInRange(lab.State())
    {
      BrushEffect(lab.editMode, shift, lab.brushStrength)
    }

    /** `draw`: one brush sample at the mapped point, or nothing. */
    method Draw(clientX: real, clientY: real, rect: Rect, shift: bool)
      requires rect.width >= 0.0 && rect.height >= 0.0
      requires BrushSettingsInRange(lab.State())
      modifies layer
      ensures layer != null ==>
        BrushSampled(layer, BrushCentre(clientX, clientY, rect), lab.brushSize, SessionEffect(shift))
    {
      if layer == null || imageSize.None? {
        return;
      }
      var centre := BrushCentre(clientX, clientY, rect);
      if centre.None? {
        return;
      }
      ApplyBrush(layer, centre.value.0, centre.value.1, lab.brushSize, SessionEffect(shift));
    }

    /** `handleMouseDown`: on a compatible tab and tool, start a stroke and
      paint the first sample; otherwise do nothing. */
    method MouseDown(clientX: real, clientY: real, rect: Rect, shift: bool)
      requires rect.width >= 0.0 && rect.height >= 0.0
      requires BrushSettingsInRange(lab.State())
      modifies this, layer
      ensures layer == old(layer) && imageSize == old(imageSize) && scale == old(scale)
      ensures canvasWidth == old(canvasWidth) && canvasHeight == old(canvasHeight)
      ensures !CanStartStroke(mode, lab.editMode) ==>
        isDrawing == old(isDrawing) && (layer != null ==> unchanged(layer))
      ensures CanStartStroke(mode, lab.editMode) ==>
        isDrawing && (layer != null ==>
          BrushSampled(layer, BrushCentre(clientX, clientY, rect), lab.brushSize, SessionEffect(shift)))
    {
      if !CanStartStroke(mode, lab.editMode) {
        return;
      }
      isDrawing := true;
      Draw(clientX, clientY, rect, shift);
    }

    /** `handleMouseMove`: paint a sample only while a stroke is in progress. */
    method MouseMove(clientX: real, clientY: real, rect: Rect, shift: bool)
      requires rect.width >= 0.0 && rect.height >= 0.0
      requires BrushSettingsInRange(lab.State())
      modifies layer
      ensures !isDrawing ==> layer != null ==> unchanged(layer)
      ensures isDrawing && layer != null ==>
        BrushSampled(layer, BrushCentre(clientX, clientY, rect), lab.brushSize, SessionEffect(shift))
    {
      if !isDrawing {
        return;
      }
      Draw(clientX, clientY, rect, shift);
    }

    /** `handleMouseUp` (also bound to mouse-leave): a stroke in progress
      ends and the buffer, encoded by `toDataUrl` (the canvas's
      `toDataURL`), is stored in this tab's session slot. */
    method MouseUp(toDataUrl: Grid<Byte> -> string)
      modifies this, lab
      ensures !isDrawing
      ensures layer == old(layer) && imageSize == old(imageSize) && scale == old(scale)
      ensures canvasWidth == old(canvasWidth) && canvasHeight == old(canvasHeight)
      ensures !old(isDrawing) || layer == null ==> lab.State() == old(lab.State())
      ensures old(isDrawing) && layer != null ==>
        lab.State() == CommitInto(old(lab.State()), mode, toDataUrl(ToGrid(layer)))
      ensures old(isDrawing) && layer != null && mode != ViewOnly ==>
        CurrentEditUrl() == Some(toDataUrl(ToGrid(layer)))
    {
      if isDrawing {
        isDrawing := false;
        if layer != null {
          var url := toDataUrl(ToGrid(layer));
          match mode {
            case DxTab => lab.SetDxEditDataUrl(Some(url));
            case DyTab => lab.SetDyEditDataUrl(Some(url));
            case ViewOnly =>
          }
        }
      }
    }
  }
}

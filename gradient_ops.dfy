/** Forward-difference gradients of a single-channel image, the byte-to-delta
    map applied to a decoded edit layer, and the 8-bit visualisations of
    gradient fields. */
module GradientOps {
  import opened Common
  import opened Grids

  // ---------------------------------------------------------------------
  // Forward differences
  // ---------------------------------------------------------------------

  /** Forward differences along one line, padded with 0 in the last place
      (the boundary assumption `U[N] = U[N-1]`). */
  function ForwardDiff(r: seq<real>): (d: seq<real>)
    ensures |d| == |r|
  {
    seq(|r|, i requires 0 <= i < |r| => if i + 1 < |r| then r[i + 1] - r[i] else 0.0)
  }

  /** `dx` of `compute_forward_gradients`: differences along each row. */
  function ForwardDx(u: Grid<real>, h: nat, w: nat): (dx: Grid<real>)
    requires IsMatrix(u, h, w)
    ensures IsMatrix(dx, h, w)
    ensures forall y, x :: 0 <= y < h && 0 <= x < w - 1 ==> u[y][x] + dx[y][x] == u[y][x + 1]
    ensures forall y, x :: 0 <= y < h && x == w - 1 && 0 <= x ==> dx[y][x] == 0.0
  {
    seq(h, y requires 0 <= y < h => ForwardDiff(u[y]))
  }

  /** `dy` of `compute_forward_gradients`: differences down each column. */
  function ForwardDy(u: Grid<real>, h: nat, w: nat): (dy: Grid<real>)
    requires IsMatrix(u, h, w)
    ensures IsMatrix(dy, h, w)
    ensures forall y, x :: 0 <= y < h - 1 && 0 <= x < w ==> u[y][x] + dy[y][x] == u[y + 1][x]
    ensures forall y, x :: y == h - 1 && 0 <= y && 0 <= x < w ==> dy[y][x] == 0.0
  {
    seq(h, y requires 0 <= y < h =>
      seq(w, x requires 0 <= x < w => if y + 1 < h then u[y + 1][x] - u[y][x] else 0.0))
  }

  /** Column `x` of a matrix. */
  function Column(g: Grid<real>, h: nat, w: nat, x: nat): (c: seq<real>)
    requires IsMatrix(g, h, w) && x < w
    ensures |c| == h && forall y :: 0 <= y < h ==> c[y] == g[y][x]
  {
    seq(h, y requires 0 <= y < h => g[y][x])
  }

  /** `compute_forward_gradients` on a two-dimensional image: both outputs
      start as zero arrays of the image's shape; then every entry but the
      last column of `dx`, and every entry but the last row of `dy`, is
      assigned its forward difference. */
  method ComputeForwardGradients(image: array2<real>) returns (dx: array2<real>, dy: array2<real>)
    ensures fresh(dx) && fresh(dy)
    ensures ToGrid(dx) == ForwardDx(ToGrid(image), image.Length0, image.Length1)
    ensures ToGrid(dy) == ForwardDy(ToGrid(image), image.Length0, image.Length1)
  {
    var h, w := image.Length0, image.Length1;
    ghost var u := ToGrid(image);
    ghost var targetDx, targetDy := ForwardDx(u, h, w), ForwardDy(u, h, w);
    dx := new real[h, w]((y, x) => 0.0);
    var y := 0;
    while y < h
      modifies dx
      invariant 0 <= y <= h
      invariant forall i, j :: 0 <= i < h && 0 <= j < w ==>
        dx[i, j] == (if i < y then targetDx[i][j] else 0.0)
    {
      var x := 0;
      while x + 1 < w
        modifies dx
        invariant 0 <= x <= w
        invariant forall i, j :: 0 <= i < h && 0 <= j < w ==>
          dx[i, j] == (if i < y || (i == y && j < x) then targetDx[i][j] else 0.0)
      {
        dx[y, x] := image[y, x + 1] - image[y, x];
        x := x + 1;
      }
      y := y + 1;
    }
    dy := new real[h, w]((y, x) => 0.0);
    y := 0;
    while y + 1 < h
      modifies dy
      invariant 0 <= y <= h
      invariant forall i, j :: 0 <= i < h && 0 <= j < w ==>
        dy[i, j] == (if i < y then targetDy[i][j] else 0.0)
    {
      var x := 0;
      while x < w
        modifies dy
        invariant 0 <= x <= w
        invariant forall i, j :: 0 <= i < h && 0 <= j < w ==>
          dy[i, j] == (if i < y || (i == y && j < x) then targetDy[i][j] else 0.0)
      {
        dy[y, x] := image[y + 1, x] - image[y, x];
        x := x + 1;
      }
      y := y + 1;
    }
    MatrixExt(ToGrid(dx), ForwardDx(ToGrid(image), h, w), h, w);
    MatrixExt(ToGrid(dy), ForwardDy(ToGrid(image), h, w), h, w);
  }

  /** Sum of a line, first entry first. */
  function Sum(s: seq<real>): real {
    if |s| == 0 then 0.0 else s[0] + Sum(s[1..])
  }

  /** The forward differences of a line add up to its last entry minus its first. */
  lemma {:induction false} Telescope(r: seq<real>)
    requires |r| > 0
    ensures Sum(ForwardDiff(r)) == r[|r| - 1] - r[0]
  {
    if |r| == 1 {
      assert ForwardDiff(r) == [0.0];
    } else {
      assert ForwardDiff(r)[1..] == ForwardDiff(r[1..]);
      Telescope(r[1..]);
    }
  }

  /** Row `y` of `dx` sums to `img[y][w-1] - img[y][0]`. */
  lemma DxRowTelescopes(u: Grid<real>, h: nat, w: nat, y: nat)
    requires IsMatrix(u, h, w) && y < h && w > 0
    ensures Sum(ForwardDx(u, h, w)[y]) == u[y][w - 1] - u[y][0]
  {
    Telescope(u[y]);
  }

  /** Column `x` of `dy` is the forward difference of column `x` of the
      image, so it sums to `img[h-1][x] - img[0][x]`. */
  lemma DyColumnTelescopes(u: Grid<real>, h: nat, w: nat, x: nat)
    requires IsMatrix(u, h, w) && x < w && h > 0
    ensures Column(ForwardDy(u, h, w), h, w, x) == ForwardDiff(Column(u, h, w, x))
    ensures Sum(Column(ForwardDy(u, h, w), h, w, x)) == u[h - 1][x] - u[0][x]
  {
    assert Column(ForwardDy(u, h, w), h, w, x) == ForwardDiff(Column(u, h, w, x));
    Telescope(Column(u, h, w, x));
  }

  /** A constant image has zero gradients everywhere. */
  lemma ConstantImageHasZeroGradients(u: Grid<real>, h: nat, w: nat, c: real)
    requires IsMatrix(u, h, w)
    requires forall y, x :: 0 <= y < h && 0 <= x < w ==> u[y][x] == c
    ensures forall y, x :: 0 <= y < h && 0 <= x < w ==>
      ForwardDx(u, h, w)[y][x] == 0.0 && ForwardDy(u, h, w)[y][x] == 0.0
  {
  }

  // ---------------------------------------------------------------------
  // Decoding an edit layer
  // ---------------------------------------------------------------------

  /** The per-pixel map of `decode_base64_gradient_png`: a greyscale byte
      `v` becomes `(v / 255 - 0.5) * 2`. */
  function DeltaOfByte(v: Byte): (d: real)
    ensures -1.0 <= d <= 1.0
    ensures d * 255.0 == 2.0 * v as real - 255.0
  {
    (v as real / 255.0 - 0.5) * 2.0
  }

  /** The decoded field of a greyscale raster. */
  function DecodeField(g: Grid<Byte>): (d: Grid<real>)
    ensures |d| == |g| && forall y :: 0 <= y < |g| ==> |d[y]| == |g[y]|
    ensures forall y, x :: 0 <= y < |g| && 0 <= x < |g[y]| ==> -1.0 <= d[y][x] <= 1.0
  {
    seq(|g|, y requires 0 <= y < |g| =>
      seq(|g[y]|, x requires 0 <= x < |g[y]| => DeltaOfByte(g[y][x])))
  }

  /** The decode map is strictly increasing, so distinct bytes give distinct deltas. */
  lemma DeltaOfByteStrictlyIncreasing(a: Byte, b: Byte)
    ensures a < b <==> DeltaOfByte(a) < DeltaOfByte(b)
  {
  }

  /** Black decodes to -1, white to +1, and the canvas's neutral grey 128 to
      1/255, not to 0. */
  lemma DeltaOfByteLandmarks()
    ensures DeltaOfByte(0) == -1.0
    ensures DeltaOfByte(255) == 1.0
    ensures DeltaOfByte(128) == 1.0 / 255.0
    ensures DeltaOfByte(127) == -1.0 / 255.0
  {
  }

  // ---------------------------------------------------------------------
  // Visualisation
  // ---------------------------------------------------------------------

  /** The `1e-6` added to the maximum before dividing. */
  const Epsilon: real := 0.000001

  function Abs(v: real): (a: real)
    ensures a >= 0.0 && (a == v || a == -v)
  {
    if v < 0.0 then -v else v
  }

  /** `np.max` of a non-empty line. */
  function SeqMax(r: seq<real>): (m: real)
    requires |r| > 0
    ensures forall i :: 0 <= i < |r| ==> r[i] <= m
    ensures exists i :: 0 <= i < |r| && r[i] == m
  {
    if |r| == 1 then r[0]
    else
      var rest := SeqMax(r[1..]);
      assert exists i :: 1 <= i < |r| && r[i] == rest;
      MaxReal(r[0], rest)
  }

  /** `np.max` of a non-empty matrix. */
  function GridMax(g: Grid<real>, h: nat, w: nat): (m: real)
    requires IsMatrix(g, h, w) && h > 0 && w > 0
    ensures forall y, x :: 0 <= y < h && 0 <= x < w ==> g[y][x] <= m
    ensures exists y, x :: 0 <= y < h && 0 <= x < w && g[y][x] == m
  {
    if h == 1 then
      var m := SeqMax(g[0]);
      assert exists x :: 0 <= x < w && g[0][x] == m;
      m
    else
      var first := SeqMax(g[0]);
      var rest := GridMax(g[1..], h - 1, w);
      assert exists x :: 0 <= x < w && g[0][x] == first;
      assert exists y, x :: 1 <= y < h && 0 <= x < w && g[y][x] == rest by {
        var y', x' :| 0 <= y' < h - 1 && 0 <= x' < w && g[1..][y'][x'] == rest;
        assert g[y' + 1][x'] == rest;
      }
      MaxReal(first, rest)
  }

  /** `np.abs` of a matrix. */
  function AbsGrid(g: Grid<real>, h: nat, w: nat): (a: Grid<real>)
    requires IsMatrix(g, h, w)
    ensures IsMatrix(a, h, w)
    ensures forall y, x :: 0 <= y < h && 0 <= x < w ==> a[y][x] >= 0.0
  {
    seq(h, y requires 0 <= y < h => seq(w, x requires 0 <= x < w => Abs(g[y][x])))
  }

  /** `np.clip(v, 0, 255).astype(np.uint8)`: clamp, then truncate. */
  function ToByte(v: real): (b: Byte)
    ensures v <= 0.0 ==> b == 0
    ensures v >= 255.0 ==> b == 255
    ensures 0.0 <= v <= 255.0 ==> b as real <= v < b as real + 1.0
  {
    Clip(v, 0.0, 255.0).Floor
  }

  /** The level `_normalize_signed_field` computes for one entry, before the clip. */
  function SignedLevel(v: real, maxAbs: real): real
    requires maxAbs >= 0.0
  {
    (v / (2.0 * (maxAbs + Epsilon)) + 0.5) * 255.0
  }

  /** The level `_normalize_magnitude_field` computes for one entry, before the clip. */
  function MagnitudeLevel(v: real, maxVal: real): real
    requires maxVal >= 0.0
  {
    (v / (maxVal + Epsilon)) * 255.0
  }

  /** `_normalize_signed_field`: scale by twice the largest magnitude (plus
      epsilon) around mid-grey, then clamp and truncate. */
  function NormalizeSigned(field: Grid<real>, h: nat, w: nat): (out: Grid<Byte>)
    requires IsMatrix(field, h, w) && h > 0 && w > 0
    ensures IsMatrix(out, h, w)
  {
    var m := GridMax(AbsGrid(field, h, w), h, w);
    seq(h, y requires 0 <= y < h => seq(w, x requires 0 <= x < w => ToByte(SignedLevel(field[y][x], m))))
  }

  /** `_normalize_magnitude_field` on a non-negative field: scale by the
      maximum (plus epsilon), then clamp and truncate. */
  function NormalizeMagnitude(field: Grid<real>, h: nat, w: nat): (out: Grid<Byte>)
    requires IsMatrix(field, h, w) && h > 0 && w > 0
    requires forall y, x :: 0 <= y < h && 0 <= x < w ==> field[y][x] >= 0.0
    ensures IsMatrix(out, h, w)
  {
    var m := GridMax(field, h, w);
    seq(h, y requires 0 <= y < h => seq(w, x requires 0 <= x < w => ToByte(MagnitudeLevel(field[y][x], m))))
  }

  /** Dividing a number of magnitude at most `m` by `2 * (m + eps)` lands
      strictly inside (-1/2, 1/2). */
  lemma HalfRatioBound(v: real, m: real)
    requires m >= 0.0 && Abs(v) <= m
    ensures -0.5 < v / (2.0 * (m + Epsilon)) < 0.5
  {
    var d := 2.0 * (m + Epsilon);
    var q := v / d;
    assert q * d == v;
  }

  /** Every entry of a signed field lands strictly between 0 and 255 before
      the clip, so the clip of `_normalize_signed_field` never engages. */
  lemma SignedClipNeverEngages(field: Grid<real>, h: nat, w: nat, y: nat, x: nat)
    requires IsMatrix(field, h, w) && y < h && x < w
    ensures 0.0 < SignedLevel(field[y][x], GridMax(AbsGrid(field, h, w), h, w)) < 255.0
  {
    var m := GridMax(AbsGrid(field, h, w), h, w);
    assert AbsGrid(field, h, w)[y][x] == Abs(field[y][x]);
    HalfRatioBound(field[y][x], m);
  }

  /** A zero gradient is drawn as 127, one below the canvas's neutral 128. */
  lemma ZeroShowsAs127(field: Grid<real>, h: nat, w: nat, y: nat, x: nat)
    requires IsMatrix(field, h, w) && y < h && x < w && field[y][x] == 0.0
    ensures NormalizeSigned(field, h, w)[y][x] == 127
  {
    var m := GridMax(AbsGrid(field, h, w), h, w);
    assert SignedLevel(0.0, m) == 127.5;
  }

  /** Dividing by a positive number keeps order. */
  lemma DivideKeepsOrder(a: real, b: real, d: real)
    requires a <= b && d > 0.0
    ensures a / d <= b / d
  {
    var qa, qb := a / d, b / d;
    assert qa * d == a && qb * d == b;
  }

  /** The signed visualisation keeps the order of the field's entries. */
  lemma NormalizeSignedMonotone(field: Grid<real>, h: nat, w: nat, y1: nat, x1: nat, y2: nat, x2: nat)
    requires IsMatrix(field, h, w) && y1 < h && x1 < w && y2 < h && x2 < w
    requires field[y1][x1] <= field[y2][x2]
    ensures NormalizeSigned(field, h, w)[y1][x1] <= NormalizeSigned(field, h, w)[y2][x2]
  {
    var m := GridMax(AbsGrid(field, h, w), h, w);
    DivideKeepsOrder(field[y1][x1], field[y2][x2], 2.0 * (m + Epsilon));
  }

  /** A number between 0 and `m` divided by `m + eps` lands in [0, 1). */
  lemma RatioBelowOne(v: real, m: real)
    requires 0.0 <= v <= m
    ensures 0.0 <= v / (m + Epsilon) < 1.0
  {
    var d := m + Epsilon;
    var q := v / d;
    assert q * d == v;
  }

  /** Every entry of a non-negative field lands in [0, 255) before the clip. */
  lemma MagnitudeClipNeverEngages(field: Grid<real>, h: nat, w: nat, y: nat, x: nat)
    requires IsMatrix(field, h, w) && h > 0 && w > 0 && y < h && x < w
    requires forall i, j :: 0 <= i < h && 0 <= j < w ==> field[i][j] >= 0.0
    ensures 0.0 <= MagnitudeLevel(field[y][x], GridMax(field, h, w)) < 255.0
  {
    RatioBelowOne(field[y][x], GridMax(field, h, w));
  }

  /** `np.sqrt` as far as this model needs it: non-negative on non-negative input. */
  type SquareRoot = f: real -> real | forall v :: 0.0 <= v ==> 0.0 <= f(v)
    witness (v: real) => v * v

  /** `gradient_magnitude`: `sqrt(dx^2 + dy^2)` entrywise. */
  function GradientMagnitude(dx: Grid<real>, dy: Grid<real>, h: nat, w: nat, sqrt: SquareRoot): (mag: Grid<real>)
    requires IsMatrix(dx, h, w) && IsMatrix(dy, h, w)
    ensures IsMatrix(mag, h, w)
    ensures forall y, x :: 0 <= y < h && 0 <= x < w ==> mag[y][x] >= 0.0
  {
    seq(h, y requires 0 <= y < h => seq(w, x requires 0 <= x < w =>
      var s := dx[y][x] * dx[y][x] + dy[y][x] * dy[y][x];
      assert s >= 0.0;
      sqrt(s)))
  }

  datatype VisualError =
    | UnknownMode(mode: string)  // the ValueError for a mode other than "dx", "dy", "mag"
    | EmptyField                 // numpy's maximum of a zero-size array

  /** `create_gradient_visual`: the mode picks the field and its normaliser;
      any other mode is an error, raised before any field is looked at. */
  function CreateGradientVisual(dx: Grid<real>, dy: Grid<real>, h: nat, w: nat, mode: string, sqrt: SquareRoot)
    : (r: Result<Grid<Byte>, VisualError>)
    requires IsMatrix(dx, h, w) && IsMatrix(dy, h, w)
    ensures mode !in {"dx", "dy", "mag"} <==> r == Err(UnknownMode(mode))
    ensures mode in {"dx", "dy", "mag"} ==> (r.Ok? <==> h > 0 && w > 0)
    ensures r.Ok? ==> IsMatrix(r.value, h, w)
    ensures mode == "dx" && h > 0 && w > 0 ==> r == Ok(NormalizeSigned(dx, h, w))
    ensures mode == "dy" && h > 0 && w > 0 ==> r == Ok(NormalizeSigned(dy, h, w))
    ensures mode == "mag" && h > 0 && w > 0 ==>
      r == Ok(NormalizeMagnitude(GradientMagnitude(dx, dy, h, w, sqrt), h, w))
  {
    if mode != "dx" && mode != "dy" && mode != "mag" then Err(UnknownMode(mode))
    else if h == 0 || w == 0 then Err(EmptyField)
    else if mode == "dx" then Ok(NormalizeSigned(dx, h, w))
    else if mode == "dy" then Ok(NormalizeSigned(dy, h, w))
    else Ok(NormalizeMagnitude(GradientMagnitude(dx, dy, h, w, sqrt), h, w))
  }

  /** The "dx" visual depends on `dx` alone and the "dy" visual on `dy` alone. */
  lemma VisualUsesOnlyItsChannel(dx: Grid<real>, dy: Grid<real>, dx': Grid<real>, dy': Grid<real>,
                                 h: nat, w: nat, sqrt: SquareRoot)
    requires IsMatrix(dx, h, w) && IsMatrix(dy, h, w) && IsMatrix(dx', h, w) && IsMatrix(dy', h, w)
    ensures CreateGradientVisual(dx, dy, h, w, "dx", sqrt) == CreateGradientVisual(dx, dy', h, w, "dx", sqrt)
    ensures CreateGradientVisual(dx, dy, h, w, "dy", sqrt) == CreateGradientVisual(dx', dy, h, w, "dy", sqrt)
  {
  }
}

/** Reconstruction of a greyscale image from a gradient field by the
    residual method: the divergence of the target field minus the 5-point
    Laplacian of the original gives the right-hand side of a Poisson problem
    for the correction, which is solved on the interior with zero boundary
    and added to the original. The DST-I solve itself is opaque here. */
module PoissonSolver {
  import opened Common
  import opened Grids
  import opened GradientOps

  // ---------------------------------------------------------------------
  // Grids used by the specification
  // ---------------------------------------------------------------------

  function Zeros(h: nat, w: nat): (z: Grid<real>)
    ensures IsMatrix(z, h, w)
    ensures forall y, x :: 0 <= y < h && 0 <= x < w ==> z[y][x] == 0.0
  {
    seq(h, y => seq(w, x => 0.0))
  }

  /** The length of the slice `[1:-1]` of an axis of length `n`. */
  function Inner(n: nat): nat {
    if n >= 2 then n - 2 else 0
  }

  /** `_solve_poisson_dst1` as far as this model depends on it: the result
      has the shape of the right-hand side, and a zero right-hand side gives
      a zero correction (the transforms are linear and the eigenvalue
      denominator is never zero). */
  type DstSolve = f: Grid<real> -> Grid<real> |
    forall g, m: nat, n: nat :: IsMatrix(g, m, n) ==>
      IsMatrix(f(g), m, n) && (g == Zeros(m, n) ==> f(g) == Zeros(m, n))
    witness (g: Grid<real>) => g

  /** The optional boundary image: absent, single-channel, or with (at
      least) three colour channels. */
  datatype BoundaryImage =
    | NoBoundary
    | Gray(pixels: Grid<real>)
    | Rgb(colours: Grid<(real, real, real)>)

  ghost predicate BoundaryFits(b: BoundaryImage, h: nat, w: nat) {
    match b
    case NoBoundary => true
    case Gray(g) => IsMatrix(g, h, w)
    case Rgb(c) => IsMatrix(c, h, w)
  }

  /** The luma weights of step 2. */
  function Luma(c: (real, real, real)): real {
    0.299 * c.0 + 0.587 * c.1 + 0.114 * c.2
  }

  /** `boundary_gray` of step 2: zeros without a boundary image, the image
      itself when it has one channel, its luma when it has colour. */
  function BoundaryGray(b: BoundaryImage, h: nat, w: nat): (u: Grid<real>)
    requires BoundaryFits(b, h, w)
    ensures IsMatrix(u, h, w)
  {
    match b
    case NoBoundary => Zeros(h, w)
    case Gray(g) => g
    case Rgb(c) => seq(h, y requires 0 <= y < h => seq(w, x requires 0 <= x < w => Luma(c[y][x])))
  }

  /** `dx[:, 1:-1] - dx[:, :-2]`: backward differences of `dx` at the inner columns. */
  function ColumnDifferences(dx: Grid<real>, h: nat, w: nat): (d: Grid<real>)
    requires IsMatrix(dx, h, w)
    ensures IsMatrix(d, h, Inner(w))
  {
    seq(h, i requires 0 <= i < h => seq(Inner(w), j requires 0 <= j < Inner(w) => dx[i][j + 1] - dx[i][j]))
  }

  /** `dy[1:-1, :] - dy[:-2, :]`: backward differences of `dy` at the inner rows. */
  function RowDifferences(dy: Grid<real>, h: nat, w: nat): (d: Grid<real>)
    requires IsMatrix(dy, h, w)
    ensures IsMatrix(d, Inner(h), w)
  {
    seq(Inner(h), i requires 0 <= i < Inner(h) => seq(w, j requires 0 <= j < w => dy[i + 1][j] - dy[i][j]))
  }

  /** The 5-point stencil evaluated on the interior block `[1:-1, 1:-1]`. */
  function Stencil(u: Grid<real>, h: nat, w: nat): (s: Grid<real>)
    requires IsMatrix(u, h, w)
    ensures IsMatrix(s, Inner(h), Inner(w))
  {
    seq(Inner(h), i requires 0 <= i < Inner(h) => seq(Inner(w), j requires 0 <= j < Inner(w) =>
      u[i + 1][j + 2] + u[i + 1][j] + u[i + 2][j + 1] + u[i][j + 1] - 4.0 * u[i + 1][j + 1]))
  }

  /** The block `[1:-1, 1:-1]` of a matrix. */
  function Interior(f: Grid<real>, h: nat, w: nat): (g: Grid<real>)
    requires IsMatrix(f, h, w)
    ensures IsMatrix(g, Inner(h), Inner(w))
    ensures forall i, j :: 0 <= i < Inner(h) && 0 <= j < Inner(w) ==> g[i][j] == f[i + 1][j + 1]
  {
    seq(Inner(h), i requires 0 <= i < Inner(h) => seq(Inner(w), j requires 0 <= j < Inner(w) => f[i + 1][j + 1]))
  }

  /** Entry `(i, j)` of a block, and 0 outside it. */
  function BlockAt(block: Grid<real>, bh: nat, bw: nat, i: int, j: int): real
    requires IsMatrix(block, bh, bw)
  {
    if 0 <= i < bh && 0 <= j < bw then block[i][j] else 0.0
  }

  predicate IsInterior(y: int, x: int, h: nat, w: nat) {
    1 <= y && y + 1 < h && 1 <= x && x + 1 < w
  }

  // ---------------------------------------------------------------------
  // The fields of steps 1, 3 and 4
  // ---------------------------------------------------------------------

  /** Step 1, `div`: at every point, the backward difference of `dx` when
      the column is inner plus the backward difference of `dy` when the row
      is inner. */
  function Divergence(dx: Grid<real>, dy: Grid<real>, h: nat, w: nat): (div: Grid<real>)
    requires IsMatrix(dx, h, w) && IsMatrix(dy, h, w)
    ensures IsMatrix(div, h, w)
    ensures forall y, x :: 0 <= y < h && 0 <= x < w ==>
      div[y][x] == ColumnTerm(dx, h, w, y, x) + RowTerm(dy, h, w, y, x)
  {
    seq(h, y requires 0 <= y < h => seq(w, x requires 0 <= x < w =>
      ColumnTerm(dx, h, w, y, x) + RowTerm(dy, h, w, y, x)))
  }

  /** The `dx` part of `div` at one point. */
  function ColumnTerm(dx: Grid<real>, h: nat, w: nat, y: nat, x: nat): real
    requires IsMatrix(dx, h, w) && y < h && x < w
  {
    if 1 <= x && x + 1 < w then dx[y][x] - dx[y][x - 1] else 0.0
  }

  /** The `dy` part of `div` at one point. */
  function RowTerm(dy: Grid<real>, h: nat, w: nat, y: nat, x: nat): real
    requires IsMatrix(dy, h, w) && y < h && x < w
  {
    if 1 <= y && y + 1 < h then dy[y][x] - dy[y - 1][x] else 0.0
  }

  /** The column differences, placed at column offset 1, give the `dx` part. */
  lemma ColumnDifferencesPlaced(dx: Grid<real>, h: nat, w: nat, y: nat, x: nat)
    requires IsMatrix(dx, h, w) && y < h && x < w
    ensures BlockAt(ColumnDifferences(dx, h, w), h, Inner(w), y, x - 1) == ColumnTerm(dx, h, w, y, x)
  {
  }

  /** The stencil block, placed at offset (1, 1), gives `lap_orig`. */
  lemma StencilPlaced(u: Grid<real>, h: nat, w: nat, y: nat, x: nat)
    requires IsMatrix(u, h, w) && y < h && x < w
    ensures BlockAt(Stencil(u, h, w), Inner(h), Inner(w), y - 1, x - 1) == Laplacian5(u, h, w)[y][x]
  {
  }

  /** The row differences, placed at row offset 1, give the `dy` part. */
  lemma RowDifferencesPlaced(dy: Grid<real>, h: nat, w: nat, y: nat, x: nat)
    requires IsMatrix(dy, h, w) && y < h && x < w
    ensures BlockAt(RowDifferences(dy, h, w), Inner(h), w, y - 1, x) == RowTerm(dy, h, w, y, x)
  {
  }

  /** Step 3, `lap_orig`: the 5-point Laplacian at interior points, 0 on the border. */
  function Laplacian5(u: Grid<real>, h: nat, w: nat): (lap: Grid<real>)
    requires IsMatrix(u, h, w)
    ensures IsMatrix(lap, h, w)
    ensures forall y, x :: 0 <= y < h && 0 <= x < w && !IsInterior(y, x, h, w) ==> lap[y][x] == 0.0
  {
    seq(h, y requires 0 <= y < h => seq(w, x requires 0 <= x < w =>
      if IsInterior(y, x, h, w)
      then u[y][x + 1] + u[y][x - 1] + u[y + 1][x] + u[y - 1][x] - 4.0 * u[y][x]
      else 0.0))
  }

  /** Step 4, `f = div - lap_orig`. */
  function Residual(dx: Grid<real>, dy: Grid<real>, u: Grid<real>, h: nat, w: nat): (f: Grid<real>)
    requires IsMatrix(dx, h, w) && IsMatrix(dy, h, w) && IsMatrix(u, h, w)
    ensures IsMatrix(f, h, w)
    ensures forall y, x :: 0 <= y < h && 0 <= x < w && !IsInterior(y, x, h, w) ==>
      f[y][x] == Divergence(dx, dy, h, w)[y][x]
  {
    var div := Divergence(dx, dy, h, w);
    var lap := Laplacian5(u, h, w);
    seq(h, y requires 0 <= y < h => seq(w, x requires 0 <= x < w => div[y][x] - lap[y][x]))
  }

  /** The value `reconstruct_image_from_gradients` returns: the boundary
      image itself when either side is at most 2; otherwise the boundary
      image plus the solved correction on the interior, clipped to [0, 1]. */
  function Reconstruct(dx: Grid<real>, dy: Grid<real>, b: BoundaryImage, h: nat, w: nat, solve: DstSolve)
    : (result: Grid<real>)
    requires IsMatrix(dx, h, w) && IsMatrix(dy, h, w) && BoundaryFits(b, h, w)
    ensures IsMatrix(result, h, w)
    ensures h <= 2 || w <= 2 ==> result == BoundaryGray(b, h, w)
    ensures h > 2 && w > 2 ==> forall y, x :: 0 <= y < h && 0 <= x < w ==> 0.0 <= result[y][x] <= 1.0
  {
    var u := BoundaryGray(b, h, w);
    if h <= 2 || w <= 2 then u
    else
      var r := solve(Interior(Residual(dx, dy, u, h, w), h, w));
      seq(h, y requires 0 <= y < h => seq(w, x requires 0 <= x < w =>
        Clip(u[y][x] + BlockAt(r, h - 2, w - 2, y - 1, x - 1), 0.0, 1.0)))
  }

  // ---------------------------------------------------------------------
  // The in-place array steps
  // ---------------------------------------------------------------------

  /** `a[top:top+bh, left:left+bw] += block`. */
  method AddBlock(a: array2<real>, top: nat, left: nat, block: Grid<real>, bh: nat, bw: nat)
    requires IsMatrix(block, bh, bw)
    requires bh == 0 || bw == 0 || (top + bh <= a.Length0 && left + bw <= a.Length1)
    modifies a
    ensures forall y, x :: 0 <= y < a.Length0 && 0 <= x < a.Length1 ==>
      a[y, x] == old(a[y, x]) + BlockAt(block, bh, bw, y - top, x - left)
  {
    var i := 0;
    while i < bh
      invariant 0 <= i <= bh
      invariant forall y, x :: 0 <= y < a.Length0 && 0 <= x < a.Length1 ==>
        a[y, x] == old(a[y, x]) + (if 0 <= y - top < i then BlockAt(block, bh, bw, y - top, x - left) else 0.0)
    {
      var j := 0;
      while j < bw
        invariant 0 <= j <= bw
        invariant forall y, x :: 0 <= y < a.Length0 && 0 <= x < a.Length1 ==>
          a[y, x] == old(a[y, x]) + (if 0 <= y - top < i || (y - top == i && 0 <= x - left < j)
                                     then BlockAt(block, bh, bw, y - top, x - left) else 0.0)
      {
        a[top + i, left + j] := a[top + i, left + j] + block[i][j];
        j := j + 1;
      }
      i := i + 1;
    }
  }

  /** `a[top:top+bh, left:left+bw] = block`. */
  method SetBlock(a: array2<real>, top: nat, left: nat, block: Grid<real>, bh: nat, bw: nat)
    requires IsMatrix(block, bh, bw)
    requires bh == 0 || bw == 0 || (top + bh <= a.Length0 && left + bw <= a.Length1)
    modifies a
    ensures forall y, x :: 0 <= y < a.Length0 && 0 <= x < a.Length1 ==>
      a[y, x] == (if top <= y < top + bh && left <= x < left + bw
                  then BlockAt(block, bh, bw, y - top, x - left) else old(a[y, x]))
  {
    var i := 0;
    while i < bh
      invariant 0 <= i <= bh
      invariant forall y, x :: 0 <= y < a.Length0 && 0 <= x < a.Length1 ==>
        a[y, x] == (if top <= y < top + i && left <= x < left + bw
                    then BlockAt(block, bh, bw, y - top, x - left) else old(a[y, x]))
    {
      var j := 0;
      while j < bw
        invariant 0 <= j <= bw
        invariant forall y, x :: 0 <= y < a.Length0 && 0 <= x < a.Length1 ==>
          a[y, x] == (if (top <= y < top + i && left <= x < left + bw) || (y == top + i && left <= x < left + j)
                      then BlockAt(block, bh, bw, y - top, x - left) else old(a[y, x]))
      {
        a[top + i, left + j] := block[i][j];
        j := j + 1;
      }
      i := i + 1;
    }
  }

  /** A new array holding a grid's values (`np.zeros`, `astype`, `copy`). */
  method FromGrid(g: Grid<real>, h: nat, w: nat) returns (a: array2<real>)
    requires IsMatrix(g, h, w)
    ensures fresh(a) && a.Length0 == h && a.Length1 == w
    ensures ToGrid(a) == g
  {
    a := new real[h, w]((y, x) => 0.0);
    SetBlock(a, 0, 0, g, h, w);
    MatrixExt(ToGrid(a), g, h, w);
  }

  /** Entrywise `a - b` into a new array. */
  method Subtract(a: array2<real>, b: array2<real>) returns (c: array2<real>)
    requires a.Length0 == b.Length0 && a.Length1 == b.Length1
    ensures fresh(c) && c.Length0 == a.Length0 && c.Length1 == a.Length1
    ensures forall y, x :: 0 <= y < c.Length0 && 0 <= x < c.Length1 ==> c[y, x] == a[y, x] - b[y, x]
  {
    c := new real[a.Length0, a.Length1]((y, x) => 0.0);
    var i := 0;
    while i < a.Length0
      modifies c
      invariant 0 <= i <= a.Length0
      invariant forall y, x :: 0 <= y < i && 0 <= x < c.Length1 ==> c[y, x] == a[y, x] - b[y, x]
    {
      var j := 0;
      while j < a.Length1
        modifies c
        invariant 0 <= j <= a.Length1
        invariant forall y, x :: 0 <= y < c.Length0 && 0 <= x < c.Length1 && (y < i || (y == i && x < j)) ==>
          c[y, x] == a[y, x] - b[y, x]
      {
        c[i, j] := a[i, j] - b[i, j];
        j := j + 1;
      }
      i := i + 1;
    }
  }

  /** `np.clip(a, 0.0, 1.0)` into a new array. */
  method ClipToUnit(a: array2<real>) returns (c: array2<real>)
    ensures fresh(c) && c.Length0 == a.Length0 && c.Length1 == a.Length1
    ensures forall y, x :: 0 <= y < c.Length0 && 0 <= x < c.Length1 ==> c[y, x] == Clip(a[y, x], 0.0, 1.0)
  {
    c := new real[a.Length0, a.Length1]((y, x) => 0.0);
    var i := 0;
    while i < a.Length0
      modifies c
      invariant 0 <= i <= a.Length0
      invariant forall y, x :: 0 <= y < i && 0 <= x < c.Length1 ==> c[y, x] == Clip(a[y, x], 0.0, 1.0)
    {
      var j := 0;
      while j < a.Length1
        modifies c
        invariant 0 <= j <= a.Length1
        invariant forall y, x :: 0 <= y < c.Length0 && 0 <= x < c.Length1 && (y < i || (y == i && x < j)) ==>
          c[y, x] == Clip(a[y, x], 0.0, 1.0)
      {
        c[i, j] := Clip(a[i, j], 0.0, 1.0);
        j := j + 1;
      }
      i := i + 1;
    }
  }

  /** Step 1: `div` starts at zero; the column differences of `dx` are added
      on the inner columns, then the row differences of `dy` on the inner rows. */
  method ComputeDivergence(dx: Grid<real>, dy: Grid<real>, h: nat, w: nat) returns (div: array2<real>)
    requires IsMatrix(dx, h, w) && IsMatrix(dy, h, w)
    ensures fresh(div) && div.Length0 == h && div.Length1 == w
    ensures ToGrid(div) == Divergence(dx, dy, h, w)
  {
    div := new real[h, w]((y, x) => 0.0);
    AddBlock(div, 0, 1, ColumnDifferences(dx, h, w), h, Inner(w));
    forall y: nat, x: nat | y < h && x < w
      ensures div[y, x] == ColumnTerm(dx, h, w, y, x)
    {
      ColumnDifferencesPlaced(dx, h, w, y, x);
    }
    AddBlock(div, 1, 0, RowDifferences(dy, h, w), Inner(h), w);
    forall y: nat, x: nat | y < h && x < w
      ensures div[y, x] == ColumnTerm(dx, h, w, y, x) + RowTerm(dy, h, w, y, x)
    {
      RowDifferencesPlaced(dy, h, w, y, x);
    }
    ghost var expected := Divergence(dx, dy, h, w);
    assert forall y, x :: 0 <= y < h && 0 <= x < w ==> ToGrid(div)[y][x] == expected[y][x];
    MatrixExt(ToGrid(div), expected, h, w);
  }

  /** Step 3: `lap_orig` starts at zero and its interior block is assigned the stencil. */
  method ComputeLaplacian(u: Grid<real>, h: nat, w: nat) returns (lap: array2<real>)
    requires IsMatrix(u, h, w)
    ensures fresh(lap) && lap.Length0 == h && lap.Length1 == w
    ensures ToGrid(lap) == Laplacian5(u, h, w)
  {
    lap := new real[h, w]((y, x) => 0.0);
    SetBlock(lap, 1, 1, Stencil(u, h, w), Inner(h), Inner(w));
    ghost var expected := Laplacian5(u, h, w);
    forall y: nat, x: nat | y < h && x < w
      ensures lap[y, x] == expected[y][x]
    {
      StencilPlaced(u, h, w, y, x);
    }
    assert forall y, x :: 0 <= y < h && 0 <= x < w ==> ToGrid(lap)[y][x] == expected[y][x];
    MatrixExt(ToGrid(lap), expected, h, w);
  }

  /** Steps 1, 3 and 4: `f = div - lap_orig`. */
  method ComputeResidual(dx: Grid<real>, dy: Grid<real>, u: Grid<real>, h: nat, w: nat) returns (f: array2<real>)
    requires IsMatrix(dx, h, w) && IsMatrix(dy, h, w) && IsMatrix(u, h, w)
    ensures fresh(f) && f.Length0 == h && f.Length1 == w
    ensures ToGrid(f) == Residual(dx, dy, u, h, w)
  {
    var div := ComputeDivergence(dx, dy, h, w);
    var lapOrig := ComputeLaplacian(u, h, w);
    f := Subtract(div, lapOrig);
    ghost var expected := Residual(dx, dy, u, h, w);
    assert forall y, x :: 0 <= y < h && 0 <= x < w ==> ToGrid(f)[y][x] == expected[y][x];
    MatrixExt(ToGrid(f), expected, h, w);
  }

  /** Step 7: a copy of the boundary image, the correction added on the
      interior, then clipped to [0, 1]. */
  method MergeCorrection(u: Grid<real>, r: Grid<real>, h: nat, w: nat) returns (result: array2<real>)
    requires IsMatrix(u, h, w) && h > 2 && w > 2 && IsMatrix(r, h - 2, w - 2)
    ensures fresh(result) && result.Length0 == h && result.Length1 == w
    ensures forall y, x :: 0 <= y < h && 0 <= x < w ==>
      result[y, x] == Clip(u[y][x] + BlockAt(r, h - 2, w - 2, y - 1, x - 1), 0.0, 1.0)
  {
    var sum := FromGrid(u, h, w);
    AddBlock(sum, 1, 1, r, h - 2, w - 2);
    result := ClipToUnit(sum);
  }

  /** `reconstruct_image_from_gradients`, steps 1 to 7, on arrays. */
  method ReconstructImageFromGradients(dx: Grid<real>, dy: Grid<real>, h: nat, w: nat,
                                       boundary: BoundaryImage, solve: DstSolve)
    returns (result: array2<real>)
    requires IsMatrix(dx, h, w) && IsMatrix(dy, h, w) && BoundaryFits(boundary, h, w)
    ensures fresh(result) && result.Length0 == h && result.Length1 == w
    ensures ToGrid(result) == Reconstruct(dx, dy, boundary, h, w, solve)
  {
    var u := BoundaryGray(boundary, h, w);
    var f := ComputeResidual(dx, dy, u, h, w);
    if h <= 2 || w <= 2 {
      result := FromGrid(u, h, w);
      return;
    }
    var r := solve(Interior(ToGrid(f), h, w));
    result := MergeCorrection(u, r, h, w);
    ghost var expected := Reconstruct(dx, dy, boundary, h, w, solve);
    forall y, x | 0 <= y < h && 0 <= x < w
      ensures ToGrid(result)[y][x] == expected[y][x]
    {
      SolverPathEntry(dx, dy, boundary, h, w, solve, y, x);
    }
    MatrixExt(ToGrid(result), expected, h, w);
  }

  // ---------------------------------------------------------------------
  // Properties
  // ---------------------------------------------------------------------

  /** The identity the reconstruction relies on: at every interior point,
      the divergence of the forward gradients of `u` is the 5-point
      Laplacian of `u`. */
  lemma DivergenceOfForwardGradientsIsLaplacian(u: Grid<real>, h: nat, w: nat, y: nat, x: nat)
    requires IsMatrix(u, h, w) && IsInterior(y, x, h, w)
    ensures Divergence(ForwardDx(u, h, w), ForwardDy(u, h, w), h, w)[y][x] == Laplacian5(u, h, w)[y][x]
  {
    var dx, dy := ForwardDx(u, h, w), ForwardDy(u, h, w);
    assert dx[y][x] == u[y][x + 1] - u[y][x];
    assert dx[y][x - 1] == u[y][x] - u[y][x - 1];
  }

  /** Without edits the right-hand side handed to the solver is zero. */
  lemma ResidualVanishesWithoutEdits(u: Grid<real>, h: nat, w: nat)
    requires IsMatrix(u, h, w)
    ensures Interior(Residual(ForwardDx(u, h, w), ForwardDy(u, h, w), u, h, w), h, w) == Zeros(Inner(h), Inner(w))
  {
    var dx, dy := ForwardDx(u, h, w), ForwardDy(u, h, w);
    var f := Residual(dx, dy, u, h, w);
    var div, lap := Divergence(dx, dy, h, w), Laplacian5(u, h, w);
    forall i, j | 0 <= i < Inner(h) && 0 <= j < Inner(w)
      ensures Interior(f, h, w)[i][j] == 0.0
    {
      DivergenceOfForwardGradientsIsLaplacian(u, h, w, i + 1, j + 1);
      assert f[i + 1][j + 1] == div[i + 1][j + 1] - lap[i + 1][j + 1];
    }
    MatrixExt(Interior(f, h, w), Zeros(Inner(h), Inner(w)), Inner(h), Inner(w));
  }

  /** One entry of the result on the solver path. */
  lemma SolverPathEntry(dx: Grid<real>, dy: Grid<real>, b: BoundaryImage, h: nat, w: nat, solve: DstSolve,
                        y: nat, x: nat)
    requires IsMatrix(dx, h, w) && IsMatrix(dy, h, w) && BoundaryFits(b, h, w)
    requires h > 2 && w > 2 && y < h && x < w
    ensures var u := BoundaryGray(b, h, w);
      Reconstruct(dx, dy, b, h, w, solve)[y][x]
      == Clip(u[y][x] + BlockAt(solve(Interior(Residual(dx, dy, u, h, w), h, w)), h - 2, w - 2, y - 1, x - 1), 0.0, 1.0)
  {
  }

  /** End to end: reconstructing a single-channel image from its own
      forward gradients returns the image clipped to [0, 1]. */
  lemma ReconstructWithoutEditsIsClippedOriginal(u: Grid<real>, h: nat, w: nat, solve: DstSolve)
    requires IsMatrix(u, h, w) && h > 2 && w > 2
    ensures forall y, x :: 0 <= y < h && 0 <= x < w ==>
      Reconstruct(ForwardDx(u, h, w), ForwardDy(u, h, w), Gray(u), h, w, solve)[y][x] == Clip(u[y][x], 0.0, 1.0)
  {
    var dx, dy := ForwardDx(u, h, w), ForwardDy(u, h, w);
    var f := Residual(dx, dy, u, h, w);
    ResidualVanishesWithoutEdits(u, h, w);
    var r := solve(Interior(f, h, w));
    assert r == Zeros(h - 2, w - 2);
    forall y, x | 0 <= y < h && 0 <= x < w
      ensures Reconstruct(dx, dy, Gray(u), h, w, solve)[y][x] == Clip(u[y][x], 0.0, 1.0)
    {
      SolverPathEntry(dx, dy, Gray(u), h, w, solve, y, x);
      assert BlockAt(r, h - 2, w - 2, y - 1, x - 1) == 0.0;
    }
  }

  /** A small image is returned as the boundary image, without the clip. */
  lemma SmallImageReturnsBoundary(dx: Grid<real>, dy: Grid<real>, b: BoundaryImage, h: nat, w: nat, solve: DstSolve)
    requires IsMatrix(dx, h, w) && IsMatrix(dy, h, w) && BoundaryFits(b, h, w)
    requires h <= 2 || w <= 2
    ensures Reconstruct(dx, dy, b, h, w, solve) == BoundaryGray(b, h, w)
  {
  }

  /** On the solver path the border of the result is the clipped boundary
      image, whatever the gradients, and every value lies in [0, 1]. */
  lemma SolverPathKeepsBorder(dx: Grid<real>, dy: Grid<real>, b: BoundaryImage, h: nat, w: nat, solve: DstSolve)
    requires IsMatrix(dx, h, w) && IsMatrix(dy, h, w) && BoundaryFits(b, h, w)
    requires h > 2 && w > 2
    ensures forall y, x :: 0 <= y < h && 0 <= x < w && !IsInterior(y, x, h, w) ==>
      Reconstruct(dx, dy, b, h, w, solve)[y][x] == Clip(BoundaryGray(b, h, w)[y][x], 0.0, 1.0)
    ensures forall y, x :: 0 <= y < h && 0 <= x < w ==>
      0.0 <= Reconstruct(dx, dy, b, h, w, solve)[y][x] <= 1.0
  {
    var u := BoundaryGray(b, h, w);
    var r := solve(Interior(Residual(dx, dy, u, h, w), h, w));
    forall y, x | 0 <= y < h && 0 <= x < w
      ensures !IsInterior(y, x, h, w) ==> Reconstruct(dx, dy, b, h, w, solve)[y][x] == Clip(u[y][x], 0.0, 1.0)
      ensures 0.0 <= Reconstruct(dx, dy, b, h, w, solve)[y][x] <= 1.0
    {
      SolverPathEntry(dx, dy, b, h, w, solve, y, x);
      if !IsInterior(y, x, h, w) {
        assert BlockAt(r, h - 2, w - 2, y - 1, x - 1) == 0.0;
      }
    }
  }

  /** The four corners of the divergence are always 0. */
  lemma DivergenceCornersAreZero(dx: Grid<real>, dy: Grid<real>, h: nat, w: nat)
    requires IsMatrix(dx, h, w) && IsMatrix(dy, h, w) && h > 0 && w > 0
    ensures Divergence(dx, dy, h, w)[0][0] == 0.0
    ensures Divergence(dx, dy, h, w)[0][w - 1] == 0.0
    ensures Divergence(dx, dy, h, w)[h - 1][0] == 0.0
    ensures Divergence(dx, dy, h, w)[h - 1][w - 1] == 0.0
  {
  }

  /** The luma weights sum to 1, so a grey colour keeps its value; without a
      boundary image the boundary is all zeros. */
  lemma BoundaryGrayFacts(v: real, h: nat, w: nat)
    ensures Luma((v, v, v)) == v
    ensures BoundaryGray(NoBoundary, h, w) == Zeros(h, w)
  {
  }
}

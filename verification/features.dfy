/** The feature maps built on top of the blocks: stacking the blocks' projections in order,
    the dense `phi` and the row-wise `phi_fast` trigonometric layouts, and the results of the
    dense `transform` and the fast `transform_fast` as functions of the fitted state. */
module Features {
  import opened Results
  import opened LinAlg
  import opened Structured

  /** The floating-point primitives the feature maps use, left uninterpreted. */
  datatype Numerics = Numerics(
    cos: real -> real,
    sin: real -> real,
    sqrt: real -> real,
    recip: real -> real)

  // ---------------------------------------------------------------------------------------
  // Trigonometric layouts

  /** `[cos(z) | sin(z)]` scaled by `scale`: one row of `phi_fast` in 'accuracy' mode and one
      column of `phi`. Entry c is the cosine of z[c], entry |z| + c its sine. */
  function TrigRow(num: Numerics, scale: real, z: Vector): (r: Vector)
    ensures |r| == 2 * |z|
    ensures forall c :: 0 <= c < |z| ==> r[c] == scale * num.cos(z[c])
    ensures forall c :: 0 <= c < |z| ==> r[|z| + c] == scale * num.sin(z[c])
  {
    Scale(scale, MapReal(num.cos, z) + MapReal(num.sin, z))
  }

  /** The phase added to column j: U broadcast against a row (a one-entry U is repeated). */
  function Phase(u: Vector, j: nat): real
    requires |u| == 1 || j < |u|
  {
    if |u| == 1 then u[0] else u[j]
  }

  /** `np.cos(z + U)` for one row of width |z|, with U broadcast. */
  function PhaseCos(num: Numerics, u: Vector, z: Vector): (r: Vector)
    requires |u| == |z| || |u| == 1
    ensures |r| == |z| && forall j :: 0 <= j < |z| ==> r[j] == num.cos(z[j] + Phase(u, j))
  {
    seq(|z|, j requires 0 <= j < |z| => num.cos(z[j] + Phase(u, j)))
  }

  /** `np.cos(X + U)` row by row. */
  function CosRows(num: Numerics, u: Vector, rows: Matrix, w: nat): (r: Matrix)
    requires HasWidth(rows, w) && (|u| == w || |u| == 1)
    ensures |r| == |rows| && HasWidth(r, w)
    ensures forall i, j :: 0 <= i < |rows| && 0 <= j < w ==> r[i][j] == num.cos(rows[i][j] + Phase(u, j))
  {
    seq(|rows|, i requires 0 <= i < |rows| => PhaseCos(num, u, rows[i]))
  }

  /** `np.hstack([cos(X), sin(X)]) / sqrt(w)` row by row. */
  function TrigRows(num: Numerics, rows: Matrix, w: nat): (r: Matrix)
    requires HasWidth(rows, w)
    ensures |r| == |rows| && HasWidth(r, 2 * w)
    ensures forall i :: 0 <= i < |rows| ==> r[i] == TrigRow(num, num.recip(num.sqrt(w as real)), rows[i])
  {
    var scale := num.recip(num.sqrt(w as real));
    seq(|rows|, i requires 0 <= i < |rows| => TrigRow(num, scale, rows[i]))
  }

  /** U broadcasts against rows of width w, as `np.cos(X + U, X)` requires of its output. */
  predicate PhasesFit(u: Vector, w: nat)
  {
    w == |u| || |u| == 1
  }

  /** `phi_fast` on a matrix of rows of width w: 'accuracy' mode gives `[cos | sin] / sqrt(w)`
      (width 2w); the other mode gives `cos(X + U) * sqrt(2 / w)` (width w), failing when U does
      not broadcast against the rows and, after that, when w is zero. */
  function PhiFastRows(num: Numerics, accuracy: bool, u: Vector, rows: Matrix, w: nat)
    : (r: Result<Matrix>)
    requires HasWidth(rows, w)
    ensures accuracy ==> r.Success? && |r.value| == |rows| && HasWidth(r.value, 2 * w)
    ensures !accuracy ==> (r.Success? <==> PhasesFit(u, w) && w > 0)
    ensures !accuracy && r.Failure? ==>
      r.error == (if PhasesFit(u, w) then ZeroDivision else ShapeMismatch)
    ensures !accuracy && r.Success? ==> |r.value| == |rows| && HasWidth(r.value, w)
  {
    if accuracy then Success(TrigRows(num, rows, w))
    else if !PhasesFit(u, w) then Failure(ShapeMismatch)
    else if w == 0 then Failure(ZeroDivision)
    else
      var cosines := CosRows(num, u, rows, w);
      Success(ScaleMat(num.sqrt(2.0 / w as real), cosines))
  }

  /** `phi(V, X)`: the (2 |V|) x |X| matrix `vstack([cos(V X^T), sin(V X^T)]) / sqrt(|V|)`. */
  function Phi(num: Numerics, v: Matrix, x: Matrix, d: nat): (r: Matrix)
    requires HasWidth(v, d) && HasWidth(x, d)
    ensures |r| == 2 * |v| && HasWidth(r, |x|)
  {
    var mapped := MatMul(v, Columns(x, d), |x|);
    ScaleMat(num.recip(num.sqrt(|v| as real)), MapMat(num.cos, mapped) + MapMat(num.sin, mapped))
  }

  /** Column r of `vstack([cos(m), sin(m)])` scaled by s is the row layout of column r of m. */
  lemma TrigColumn(num: Numerics, s: real, m: Matrix, c: nat, r: nat)
    requires HasWidth(m, c) && r < c
    ensures Col(ScaleMat(s, MapMat(num.cos, m) + MapMat(num.sin, m)), r) == TrigRow(num, s, Col(m, r))
  {
    var cosines, sines := MapMat(num.cos, m), MapMat(num.sin, m);
    ColMapMat(num.cos, m, c, r);
    ColMapMat(num.sin, m, c, r);
    ColConcat(cosines, sines, c, r);
    ColScaleMat(s, cosines + sines, c, r);
  }

  /** Column r of `phi(V, X)` is the 'accuracy' row layout of V x_r. */
  lemma PhiColumn(num: Numerics, v: Matrix, x: Matrix, d: nat, r: nat)
    requires HasWidth(v, d) && HasWidth(x, d) && r < |x|
    ensures Col(Phi(num, v, x, d), r) == TrigRow(num, num.recip(num.sqrt(|v| as real)), MatVec(v, x[r]))
  {
    var xt := Columns(x, d);
    var mapped := MatMul(v, xt, |x|);
    ColMatMul(v, xt, |x|, r);
    ColColumns(x, d, r);
    TrigColumn(num, num.recip(num.sqrt(|v| as real)), mapped, |x|, r);
  }

  // ---------------------------------------------------------------------------------------
  // Stacking blocks

  /** Every block is a valid draw for width d. */
  predicate AllValid(blocks: seq<Block>, d: nat)
  {
    forall j :: 0 <= j < |blocks| ==> blocks[j].ValidFor(d)
  }

  /** One block's part of a projected row: `create_approximation_matrix_fast(S,
      create_gaussian_iid_matrix_fast(B, G, P, x))`. */
  function BlockProjection(factor: real, blk: Block, x: Vector): (r: Vector)
    requires blk.ValidFor(|x|)
    ensures |r| == |x|
  {
    CreateApproximationMatrixFast(factor, blk.s, MatVec(IntendedGaussianIidMatrix(blk.b, blk.g, blk.p), x))
  }

  /** The projected row `example` of `transform_fast`: the blocks' parts extended in order. */
  function Projection(factor: real, blocks: seq<Block>, x: Vector): (r: Vector)
    requires AllValid(blocks, |x|)
    ensures |r| == |blocks| * |x|
  {
    if |blocks| == 0 then []
    else
      var k := |blocks| - 1;
      Projection(factor, blocks[..k], x) + BlockProjection(factor, blocks[k], x)
  }

  lemma LayoutArithmetic(j: nat, k: nat, d: nat)
    requires j <= k
    ensures (j + 1) * d == j * d + d && (k + 1) * d == k * d + d
    ensures j < k ==> j * d + d <= k * d
  {
    if j < k {
      assert k * d == (k - j - 1) * d + j * d + d;
    }
  }

  lemma SliceOfConcat(front: Vector, last: Vector, lo: nat, d: nat)
    requires lo + d <= |front| + |last|
    ensures lo + d <= |front| ==> (front + last)[lo .. lo + d] == front[lo .. lo + d]
    ensures lo == |front| ==> (front + last)[lo .. lo + d] == last[..d]
  {
  }

  /** Block j fills columns [j d, (j + 1) d) of the projected row. */
  lemma {:induction false} ProjectionLayout(factor: real, blocks: seq<Block>, x: Vector, j: nat)
    requires AllValid(blocks, |x|) && j < |blocks|
    ensures (j + 1) * |x| <= |blocks| * |x|
    ensures Projection(factor, blocks, x)[j * |x| .. (j + 1) * |x|] == BlockProjection(factor, blocks[j], x)
    decreases |blocks|
  {
    var d := |x|;
    var k := |blocks| - 1;
    var prefix := blocks[..k];
    var front := Projection(factor, prefix, x);
    var last := BlockProjection(factor, blocks[k], x);
    var lo := j * d;
    LayoutArithmetic(j, k, d);
    SliceOfConcat(front, last, lo, d);
    if j < k {
      ProjectionLayout(factor, prefix, x, j);
      assert prefix[j] == blocks[j];
    }
  }

  /** The blocks with each G gathered through its P. */
  function GatheredG(blocks: seq<Block>, d: nat): (r: seq<Block>)
    requires AllValid(blocks, d)
    ensures |r| == |blocks| && AllValid(r, d)
    ensures forall j :: 0 <= j < |blocks| ==> r[j] == blocks[j].WithGatheredG()
  {
    seq(|blocks|, j requires 0 <= j < |blocks| => blocks[j].WithGatheredG())
  }

  /** The blocks whose fast projection the dense matrices compute: the blocks themselves
      for the intended matrices, the blocks with G gathered through P for the matrices as
      written. */
  function DenseEquivalent(blocks: seq<Block>, d: nat, intended: bool): (r: seq<Block>)
    requires AllValid(blocks, d)
    ensures |r| == |blocks| && AllValid(r, d)
  {
    if intended then blocks else GatheredG(blocks, d)
  }

  /** One block's dense matrix `create_approximation_matrix(S, create_gaussian_iid_matrix(B,
      G, P))`, with the middle factor as written (Pi_P diag(G)) or as intended (diag(G) Pi_P). */
  function ApproximationMatrixOf(factor: real, blk: Block, d: nat, intended: bool): (v: Matrix)
    requires blk.ValidFor(d)
    ensures |v| == d && HasWidth(v, d)
  {
    var hgphb := if intended then IntendedGaussianIidMatrix(blk.b, blk.g, blk.p)
                 else CreateGaussianIidMatrix(blk.b, blk.g, blk.p);
    CreateApproximationMatrix(factor, blk.s, hgphb)
  }

  /** The list `to_stack` of `transform`. */
  function ApproximationMatrices(factor: real, blocks: seq<Block>, d: nat, intended: bool)
    : (r: seq<Matrix>)
    requires AllValid(blocks, d)
    ensures |r| == |blocks| && forall j :: 0 <= j < |r| ==> |r[j]| == d && HasWidth(r[j], d)
  {
    seq(|blocks|, j requires 0 <= j < |blocks| => ApproximationMatrixOf(factor, blocks[j], d, intended))
  }

  /** `np.vstack(ms)` of d x d matrices. */
  function VStack(ms: seq<Matrix>, d: nat): (r: Matrix)
    requires forall j :: 0 <= j < |ms| ==> |ms[j]| == d && HasWidth(ms[j], d)
    ensures |r| == |ms| * d && HasWidth(r, d)
  {
    if |ms| == 0 then []
    else
      var top := VStack(ms[..|ms| - 1], d);
      HasWidthConcat(top, ms[|ms| - 1], d);
      top + ms[|ms| - 1]
  }

  /** One block's dense matrix applied to x is that block's fast projection, with G gathered
      through P when the matrix is the one as written. */
  lemma BlockMatrixApplied(factor: real, blk: Block, x: Vector, intended: bool)
    requires blk.ValidFor(|x|)
    ensures MatVec(ApproximationMatrixOf(factor, blk, |x|, intended), x)
         == BlockProjection(factor, if intended then blk else blk.WithGatheredG(), x)
  {
    var m := if intended then IntendedGaussianIidMatrix(blk.b, blk.g, blk.p)
             else CreateGaussianIidMatrix(blk.b, blk.g, blk.p);
    ApproximationMatricesAgree(factor, blk.s, m, x);
    if !intended {
      AsWrittenApplied(blk.b, blk.g, blk.p, x);
    }
  }

  /** The stacked dense matrices applied to x give the fast projection of x for the
      equivalent blocks. */
  lemma {:induction false} StackedApplied(factor: real, blocks: seq<Block>, x: Vector, intended: bool)
    requires AllValid(blocks, |x|)
    ensures MatVec(VStack(ApproximationMatrices(factor, blocks, |x|, intended), |x|), x)
         == Projection(factor, DenseEquivalent(blocks, |x|, intended), x)
    decreases |blocks|
  {
    var d := |x|;
    if |blocks| > 0 {
      var k := |blocks| - 1;
      var ms := ApproximationMatrices(factor, blocks, d, intended);
      var eq := DenseEquivalent(blocks, d, intended);
      assert ms[..k] == ApproximationMatrices(factor, blocks[..k], d, intended);
      assert eq[..k] == DenseEquivalent(blocks[..k], d, intended);
      StackedApplied(factor, blocks[..k], x, intended);
      MatVecConcat(VStack(ms[..k], d), ms[k], x);
      BlockMatrixApplied(factor, blocks[k], x, intended);
    }
  }

  // ---------------------------------------------------------------------------------------
  // The two transforms

  /** The result of the dense `transform` on padded rows xp of width w: `phi(V, xp)^T` with V
      the stacked dense matrices; numpy rejects a width other than d. */
  function DenseTransform(num: Numerics, factor: real, blocks: seq<Block>, d: nat, xp: Matrix, w: nat,
                          intended: bool): (r: Result<Matrix>)
    requires AllValid(blocks, d) && |blocks| >= 1 && HasWidth(xp, w)
    ensures r.Failure? <==> w != d
    ensures r.Failure? ==> r.error == ShapeMismatch
    ensures r.Success? ==> |r.value| == |xp| && HasWidth(r.value, 2 * (|blocks| * d))
  {
    if w != d then Failure(ShapeMismatch)
    else
      var v := VStack(ApproximationMatrices(factor, blocks, d, intended), d);
      Success(Columns(Phi(num, v, xp, d), |xp|))
  }

  /** The result of `transform_fast` on padded rows xp of width w. Each row is projected
      block by block (a one-entry row, or for d == 1 the one-entry b, is broadcast); with no
      rows at all `np.matrix([])` is a single empty row, which `phi_fast` then sees. */
  function FastTransform(num: Numerics, accuracy: bool, u: Vector, factor: real, blocks: seq<Block>,
                         d: nat, xp: Matrix, w: nat): (r: Result<Matrix>)
    requires AllValid(blocks, d) && HasWidth(xp, w)
    ensures |xp| == 0 ==> r == PhiFastRows(num, accuracy, u, [[]], 0)
    ensures |xp| > 0 && !ChainAccepts(d, w) ==> r == Failure(ShapeMismatch)
    ensures |xp| > 0 && accuracy ==> (r.Success? <==> ChainAccepts(d, w))
    ensures |xp| > 0 && r.Success? ==> |r.value| == |xp|
    ensures |xp| > 0 && r.Success? ==> HasWidth(r.value, if accuracy then 2 * (|blocks| * d) else |blocks| * d)
  {
    if |xp| == 0 then PhiFastRows(num, accuracy, u, [[]], 0)
    else if !ChainAccepts(d, w) then Failure(ShapeMismatch)
    else PhiFastRows(num, accuracy, u, FastRows(factor, blocks, d, xp, w), |blocks| * d)
  }

  /** The projected rows `mapped_examples` of `transform_fast`. */
  function FastRows(factor: real, blocks: seq<Block>, d: nat, xp: Matrix, w: nat): (r: Matrix)
    requires AllValid(blocks, d) && HasWidth(xp, w) && ChainAccepts(d, w)
    ensures |r| == |xp| && HasWidth(r, |blocks| * d)
  {
    seq(|xp|, i requires 0 <= i < |xp| => Projection(factor, blocks, ChainInput(xp[i], d)))
  }

  lemma FastRowsSnoc(factor: real, blocks: seq<Block>, d: nat, xp: Matrix, w: nat, i: nat)
    requires AllValid(blocks, d) && HasWidth(xp, w) && ChainAccepts(d, w) && i < |xp|
    ensures FastRows(factor, blocks, d, xp[..i + 1], w)
         == (if i == 0 then [] else FastRows(factor, blocks, d, xp[..i], w))
          + [Projection(factor, blocks, ChainInput(xp[i], d))]
  {
  }

  /** On a non-empty batch of correctly padded rows, the dense `transform` equals
      `transform_fast` in 'accuracy' mode run with the equivalent blocks. */
  lemma DenseIsFastFor(num: Numerics, u: Vector, factor: real, blocks: seq<Block>, d: nat, xp: Matrix,
                       intended: bool)
    requires AllValid(blocks, d) && |blocks| >= 1 && HasWidth(xp, d) && |xp| > 0
    ensures DenseTransform(num, factor, blocks, d, xp, d, intended)
         == FastTransform(num, true, u, factor, DenseEquivalent(blocks, d, intended), d, xp, d)
  {
    var v := VStack(ApproximationMatrices(factor, blocks, d, intended), d);
    var phi := Phi(num, v, xp, d);
    var dense := Columns(phi, |xp|);
    var equivalent := DenseEquivalent(blocks, d, intended);
    var n := |blocks| * d;
    var rows := FastRows(factor, equivalent, d, xp, d);
    var fast := PhiFastRows(num, true, u, rows, n);
    var scale := num.recip(num.sqrt(n as real));
    forall i | 0 <= i < |xp| ensures dense[i] == TrigRow(num, scale, rows[i]) {
      PhiColumn(num, v, xp, d, i);
      StackedApplied(factor, blocks, xp[i], intended);
    }
    assert fast.value == TrigRows(num, rows, n);
    assert fast.value == dense;
  }

  /** With the intended dense matrices, the dense `transform` and `transform_fast` in
      'accuracy' mode agree on every non-empty batch of correctly padded rows. */
  lemma IntendedDenseIsFast(num: Numerics, u: Vector, factor: real, blocks: seq<Block>, d: nat, xp: Matrix)
    requires AllValid(blocks, d) && |blocks| >= 1 && HasWidth(xp, d) && |xp| > 0
    ensures DenseTransform(num, factor, blocks, d, xp, d, true)
         == FastTransform(num, true, u, factor, blocks, d, xp, d)
  {
    DenseIsFastFor(num, u, factor, blocks, d, xp, true);
  }

  /** The dense `transform` as written equals `transform_fast` in 'accuracy' mode run with
      every block's G gathered through its P. */
  lemma DenseIsFastWithGatheredG(num: Numerics, u: Vector, factor: real, blocks: seq<Block>, d: nat, xp: Matrix)
    requires AllValid(blocks, d) && |blocks| >= 1 && HasWidth(xp, d) && |xp| > 0
    ensures DenseTransform(num, factor, blocks, d, xp, d, false)
         == FastTransform(num, true, u, factor, GatheredG(blocks, d), d, xp, d)
  {
    DenseIsFastFor(num, u, factor, blocks, d, xp, false);
  }

  /** When every block's G is unchanged by its P, the dense `transform` as written and the
      fast 'accuracy' transform agree on every non-empty batch of correctly padded rows. */
  lemma DenseIsFastWhenFixed(num: Numerics, u: Vector, factor: real, blocks: seq<Block>, d: nat, xp: Matrix)
    requires AllValid(blocks, d) && |blocks| >= 1 && HasWidth(xp, d) && |xp| > 0
    requires forall j :: 0 <= j < |blocks| ==> FixedByPermutation(blocks[j].g, blocks[j].p)
    ensures DenseTransform(num, factor, blocks, d, xp, d, false)
         == FastTransform(num, true, u, factor, blocks, d, xp, d)
  {
    forall j | 0 <= j < |blocks| ensures GatheredG(blocks, d)[j] == blocks[j] {
      GatherFixed(blocks[j].g, blocks[j].p);
    }
    assert GatheredG(blocks, d) == blocks;
    DenseIsFastWithGatheredG(num, u, factor, blocks, d, xp);
  }
}

/** The `Fastfood` estimator: its parameters, the state `fit` records, and the two ways of
    transforming a batch of rows (the dense `transform` and the row-by-row `transform_fast`). */
module Estimator {
  import opened Results
  import opened Planner
  import opened LinAlg
  import opened Structured
  import opened Features

  /** `2 * np.pi` as a double. */
  const TwoPi: real := 6.283185307179586

  /** The rows of a two-dimensional array. */
  function Rows(a: array2<real>): (r: Matrix)
    reads a
    ensures |r| == a.Length0 && HasWidth(r, a.Length1)
    ensures forall i, j :: 0 <= i < a.Length0 && 0 <= j < a.Length1 ==> r[i][j] == a[i, j]
  {
    seq(a.Length0, i requires 0 <= i < a.Length0 reads a =>
      seq(a.Length1, j requires 0 <= j < a.Length1 reads a => a[i, j]))
  }

  /** An array whose every entry is the cosine of an old row's entry plus its column's phase
      holds `CosRows` of the old rows. */
  lemma CosRowsOfEntries(num: Numerics, x: array2<real>, phases: Vector, before: Matrix)
    requires PhasesFit(phases, x.Length1) && |before| == x.Length0 && HasWidth(before, x.Length1)
    requires forall i, j :: 0 <= i < x.Length0 && 0 <= j < x.Length1 ==>
      x[i, j] == num.cos(before[i][j] + Phase(phases, j))
    ensures Rows(x) == CosRows(num, phases, before, x.Length1)
  {
    var after := Rows(x);
    forall i | 0 <= i < x.Length0 ensures after[i] == CosRows(num, phases, before, x.Length1)[i] {
      assert after[i] == PhaseCos(num, phases, before[i]);
    }
  }

  /** `np.matrix(rows)` for rows of width w; an empty list gives a single row of width zero. */
  method ToMatrix(rows: seq<Vector>, w: nat) returns (m: array2<real>)
    requires HasWidth(rows, w)
    ensures fresh(m)
    ensures m.Length0 == if |rows| == 0 then 1 else |rows|
    ensures m.Length1 == if |rows| == 0 then 0 else w
    ensures Rows(m) == if |rows| == 0 then [[]] else rows
  {
    var height := if |rows| == 0 then 1 else |rows|;
    var width := if |rows| == 0 then 0 else w;
    m := new real[height, width]((i, j) =>
      if 0 <= i < |rows| && 0 <= j < |rows[i]| then rows[i][j] else 0.0);
    ghost var expected := if |rows| == 0 then [[]] else rows;
    forall i | 0 <= i < height ensures Rows(m)[i] == expected[i] { }
  }

  class Fastfood {
    const sigma: real
    const nComponents: int
    /** `tradeoff_less_mem_or_higher_accuracy` */
    const tradeoff: string
    const num: Numerics

    /** Whether `fit` has run; before that the attributes below do not exist. */
    var fitted: bool
    var d: nat
    var n: int
    var timesToStackV: int
    var numberOfFeaturesToPadWithZeros: nat
    /** One `(B, G, P, S)` tuple per stacked block. */
    var vectors: seq<Block>
    /** `U`: phases, absent in 'accuracy' mode. */
    var u: Option<Vector>

    /** 'accuracy' mode maps to 2n features, the other mode to n. */
    predicate Accurate()
    {
      tradeoff == "accuracy"
    }

    /** The draws one `fit` consumes for a plan: one valid block per stacked copy, and
        phases in [0, 2 pi) of length n exactly when not in 'accuracy' mode. */
    predicate DrawsMatch(plan: Plan, draws: seq<Block>, phases: Option<Vector>)
    {
      && |draws| == plan.timesToStackV
      && AllValid(draws, plan.d)
      && (Accurate() <==> phases.None?)
      && (phases.Some? ==>
            && |phases.value| == plan.n
            && forall j :: 0 <= j < |phases.value| ==> 0.0 <= phases.value[j] < TwoPi)
    }

    ghost predicate Valid()
      reads this
    {
      && nComponents >= 1
      && (fitted ==>
        && IsPow2(d)
        && timesToStackV >= 1
        && n == timesToStackV * d
        && nComponents <= n < nComponents + d
        && numberOfFeaturesToPadWithZeros < d
        && DrawsMatch(Plan(d, n, timesToStackV), vectors, u))
    }

    constructor (sigma: real, nComponents: int, tradeoff: string, num: Numerics)
      requires nComponents >= 1
      ensures this.sigma == sigma && this.nComponents == nComponents
      ensures this.tradeoff == tradeoff && this.num == num
      ensures !fitted && Valid()
    {
      this.sigma := sigma;
      this.nComponents := nComponents;
      this.tradeoff := tradeoff;
      this.num := num;
      fitted := false;
      d, n, timesToStackV, numberOfFeaturesToPadWithZeros := 0, 0, 0, 0;
      vectors, u := [], None;
    }

    /** `U` as a vector (empty when absent). */
    function Phases(): Vector
      reads this
    {
      if u.Some? then u.value else []
    }

    /** `1 / (sigma * sqrt(d))` */
    function Factor(): real
      reads this
    {
      num.recip(sigma * num.sqrt(d as real))
    }

    /** `fit` on a batch with nFeatures columns, given the random draws it makes. A zero-width
        batch fails when the planner converts its non-finite quotient to `int`, and leaves
        the estimator as it was. */
    method Fit(nFeatures: nat, draws: seq<Block>, phases: Option<Vector>) returns (r: Result<()>)
      modifies this
      requires Valid()
      requires nFeatures >= 1 ==>
        DrawsMatch(EnforceDimensionalityConstraints(nFeatures, nComponents).value, draws, phases)
      ensures Valid()
      ensures r.Failure? <==> nFeatures == 0
      ensures r.Failure? ==> r.error == NonFiniteToInt && unchanged(this)
      ensures r.Success? ==>
        && fitted
        && Success(Plan(d, n, timesToStackV)) == EnforceDimensionalityConstraints(nFeatures, nComponents)
        && numberOfFeaturesToPadWithZeros == d - nFeatures
        && nFeatures + numberOfFeaturesToPadWithZeros == d
        && vectors == draws && u == phases
    {
      var planned := EnforceDimensionalityConstraints(nFeatures, nComponents);
      if planned.Failure? {
        return Failure(planned.error);
      }
      var plan := planned.value;
      d, n, timesToStackV := plan.d, plan.n, plan.timesToStackV;
      numberOfFeaturesToPadWithZeros := d - nFeatures;
      vectors := draws;
      u := phases;
      fitted := true;
      r := Success(());
    }

    /** `pad_with_zeros(X)` for a batch of rows of width cols: every row keeps its entries
        and gains `number_of_features_to_pad_with_zeros` zeros. */
    function PadWithZeros(x: Matrix, cols: nat): (r: Matrix)
      reads this
      requires fitted && HasWidth(x, cols)
      ensures |r| == |x| && HasWidth(r, cols + numberOfFeaturesToPadWithZeros)
      ensures forall i :: 0 <= i < |x| ==>
        r[i][..cols] == x[i] && r[i][cols..] == Zeros(numberOfFeaturesToPadWithZeros)
    {
      var pad := numberOfFeaturesToPadWithZeros;
      var padded := seq(|x|, i requires 0 <= i < |x| => x[i] + Zeros(pad));
      assert forall i :: 0 <= i < |x| ==> padded[i] == x[i] + Zeros(pad) && |padded[i]| == cols + pad;
      padded
    }

    /** `phi_fast(X)`. In 'accuracy' mode it builds `[cos | sin] / sqrt(w)`; otherwise it
        overwrites X with `cos(X + U)` in place and returns it scaled by `sqrt(2 / w)`. */
    method PhiFast(x: array2<real>) returns (r: Result<Matrix>)
      modifies x
      requires Accurate() || fitted
      ensures r == PhiFastRows(num, Accurate(), Phases(), old(Rows(x)), x.Length1)
      ensures Accurate() || !PhasesFit(Phases(), x.Length1) ==> Rows(x) == old(Rows(x))
      ensures !Accurate() && PhasesFit(Phases(), x.Length1) ==>
        Rows(x) == CosRows(num, Phases(), old(Rows(x)), x.Length1)
    {
      var w := x.Length1;
      if Accurate() {
        r := Success(TrigRows(num, Rows(x), w));
        return;
      }
      var phases := Phases();
      if !PhasesFit(phases, w) {
        return Failure(ShapeMismatch);
      }
      ghost var before := Rows(x);
      CosInPlace(x, phases);
      var cosines := Rows(x);
      if w == 0 {
        return Failure(ZeroDivision);
      }
      r := Success(ScaleMat(num.sqrt(2.0 / w as real), cosines));
    }

    /** `np.cos(X + U, X)`: every entry of x replaced, in place, by the cosine of itself plus
        the phase of its column. */
    method CosInPlace(x: array2<real>, phases: Vector)
      modifies x
      requires PhasesFit(phases, x.Length1)
      ensures Rows(x) == CosRows(num, phases, old(Rows(x)), x.Length1)
    {
      ghost var before := Rows(x);
      for i := 0 to x.Length0
        invariant forall i', j' :: 0 <= i' < i && 0 <= j' < x.Length1 ==>
          x[i', j'] == num.cos(before[i'][j'] + Phase(phases, j'))
        invariant forall i', j' :: i <= i' < x.Length0 && 0 <= j' < x.Length1 ==>
          x[i', j'] == before[i'][j']
      {
        CosRowInPlace(x, phases, i);
      }
      CosRowsOfEntries(num, x, phases, before);
    }

    /** Row i of `np.cos(X + U, X)`; the other rows are left as they are. */
    method CosRowInPlace(x: array2<real>, phases: Vector, i: nat)
      modifies x
      requires PhasesFit(phases, x.Length1) && i < x.Length0
      ensures forall j :: 0 <= j < x.Length1 ==> x[i, j] == num.cos(old(x[i, j]) + Phase(phases, j))
      ensures forall i', j :: 0 <= i' < x.Length0 && i' != i && 0 <= j < x.Length1 ==>
        x[i', j] == old(x[i', j])
    {
      for j := 0 to x.Length1
        invariant forall j' :: 0 <= j' < j ==> x[i, j'] == num.cos(old(x[i, j']) + Phase(phases, j'))
        invariant forall j' :: j <= j' < x.Length1 ==> x[i, j'] == old(x[i, j'])
        invariant forall i', j' :: 0 <= i' < x.Length0 && i' != i && 0 <= j' < x.Length1 ==>
          x[i', j'] == old(x[i', j'])
      {
        x[i, j] := num.cos(x[i, j] + Phase(phases, j));
      }
    }

    /** `transform(X)` for a batch of rows of width cols: the dense matrices of the blocks are
        stacked in order and applied through `phi`. */
    method Transform(x: Matrix, cols: nat) returns (r: Result<Matrix>)
      requires Valid() && HasWidth(x, cols)
      ensures !fitted ==> r == Failure(NotFitted)
      ensures fitted ==> r == DenseTransform(num, Factor(), vectors, d, PadWithZeros(x, cols),
                                             cols + numberOfFeaturesToPadWithZeros, false)
    {
      if !fitted {
        return Failure(NotFitted);
      }
      var toStack: seq<Matrix> := [];
      for i := 0 to timesToStackV
        invariant toStack == ApproximationMatrices(Factor(), vectors[..i], d, false)
      {
        var blk := vectors[i];
        var hgphb := CreateGaussianIidMatrix(blk.b, blk.g, blk.p);
        var v := CreateApproximationMatrix(Factor(), blk.s, hgphb);
        toStack := toStack + [v];
      }
      assert vectors[..timesToStackV] == vectors;
      var vStacked := VStack(toStack, d);
      var xPadded := PadWithZeros(x, cols);
      if cols + numberOfFeaturesToPadWithZeros != d {
        return Failure(ShapeMismatch);
      }
      r := Success(Columns(Phi(num, vStacked, xPadded, d), |xPadded|));
    }

    /** The inner loop of `transform_fast`: one padded row projected by every block in
        turn, the parts extended onto `example` in block order. */
    method ProjectRow(row: Vector) returns (example: Vector)
      requires Valid() && fitted && ChainAccepts(d, |row|)
      ensures example == Projection(Factor(), vectors, ChainInput(row, d))
    {
      example := [];
      for j := 0 to timesToStackV
        invariant example == Projection(Factor(), vectors[..j], ChainInput(row, d))
      {
        var blk := vectors[j];
        assert vectors[..j + 1][..j] == vectors[..j];
        var hgphbx := CreateGaussianIidMatrixFast(blk.b, blk.g, blk.p, row);
        var v := CreateApproximationMatrixFast(Factor(), blk.s, hgphbx);
        example := example + v;
      }
      assert vectors[..timesToStackV] == vectors;
    }

    /** `transform_fast(X)` for a batch of rows of width cols: each padded row is projected
        block by block with the fast chain, the projections are collected into a matrix and
        passed to `phi_fast`. */
    method TransformFast(x: Matrix, cols: nat) returns (r: Result<Matrix>)
      requires Valid() && HasWidth(x, cols)
      ensures !fitted ==> r == Failure(NotFitted)
      ensures fitted ==> r == FastTransform(num, Accurate(), Phases(), Factor(), vectors, d,
                                            PadWithZeros(x, cols), cols + numberOfFeaturesToPadWithZeros)
    {
      if !fitted {
        return Failure(NotFitted);
      }
      var xPadded := PadWithZeros(x, cols);
      var w := cols + numberOfFeaturesToPadWithZeros;
      var factor, blocks := Factor(), vectors;
      var mappedExamples: seq<Vector> := [];
      for i := 0 to |xPadded|
        invariant i == 0 ==> mappedExamples == []
        invariant i > 0 ==> ChainAccepts(d, w) && mappedExamples == FastRows(factor, blocks, d, xPadded[..i], w)
      {
        var row := xPadded[i];
        if !ChainAccepts(d, w) {
          return Failure(ShapeMismatch);
        }
        var example := ProjectRow(row);
        FastRowsSnoc(factor, blocks, d, xPadded, w, i);
        mappedExamples := mappedExamples + [example];
      }
      if |xPadded| > 0 {
        assert xPadded[..|xPadded|] == xPadded;
      }
      assert |blocks| * d == n;
      ghost var expected := FastTransform(num, Accurate(), Phases(), factor, blocks, d, xPadded, w);
      var matrix := ToMatrix(mappedExamples, n);
      ghost var rowsIn, widthIn := Rows(matrix), matrix.Length1;
      if |xPadded| == 0 {
        assert rowsIn == [[]] && widthIn == 0;
        assert expected == PhiFastRows(num, Accurate(), Phases(), [[]], 0);
      } else {
        assert rowsIn == FastRows(factor, blocks, d, xPadded, w);
        assert widthIn == |blocks| * d;
        assert expected == PhiFastRows(num, Accurate(), Phases(), FastRows(factor, blocks, d, xPadded, w), |blocks| * d);
      }
      assert expected == PhiFastRows(num, Accurate(), Phases(), rowsIn, widthIn);
      r := PhiFast(matrix);
      assert r == expected;
    }
  }
}

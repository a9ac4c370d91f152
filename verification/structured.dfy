/** One Fastfood block (B, G, P, S) and the structured projection it defines,
    V = (1 / (sigma sqrt d)) diag(S) H diag(G) Pi_P H diag(B): the dense reference matrix, the
    fast single-row chain, the column-batched chain and the row scaling by S. */
module Structured {
  import opened Planner
  import opened LinAlg
  import opened Hadamard

  /** p lists every index below d exactly once (`rng.permutation(d)`). */
  predicate IsPermutation(p: seq<nat>, d: nat)
  {
    && |p| == d
    && IndicesBelow(p, d)
    && forall i, j :: 0 <= i < j < d ==> p[i] != p[j]
  }

  /** Every entry is -1 or 1 (`rng.choice([-1, 1], size=d)`). */
  predicate IsSignVector(b: seq<int>)
  {
    forall i :: 0 <= i < |b| ==> b[i] == 1 || b[i] == -1
  }

  /** The tuple `(B, G, P, S)` drawn by `create_vectors`. */
  datatype Block = Block(b: seq<int>, g: Vector, p: seq<nat>, s: Vector)
  {
    /** The shape and range constraints of one block drawn for working width d: B is a sign
        vector, G and S have d entries, P is a permutation of 0 .. d-1. */
    predicate ValidFor(d: nat)
    {
      && IsPow2(d)
      && |b| == d && IsSignVector(b)
      && |g| == d
      && IsPermutation(p, d)
      && |s| == d
    }

    /** The same block with G replaced by its gather through P, g'[i] == g[p[i]]. */
    function WithGatheredG(): Block
      requires IndicesBelow(p, |g|)
    {
      Block(b, Take(g, p), p, s)
    }
  }

  // ---------------------------------------------------------------------------------------
  // Permutations

  /** The indices 0 .. d-1 as a set. */
  function Below(d: nat): (r: set<nat>)
    ensures forall k: nat :: k in r <==> k < d
  {
    if d == 0 then {} else Below(d - 1) + {d - 1}
  }

  /** The set of values p takes. */
  function Image(p: seq<nat>): (r: set<nat>)
    ensures forall i :: 0 <= i < |p| ==> p[i] in r
    ensures forall k :: k in r ==> exists i :: 0 <= i < |p| && p[i] == k
  {
    if |p| == 0 then {} else Image(p[..|p| - 1]) + {p[|p| - 1]}
  }

  lemma {:induction false} BelowCard(d: nat)
    ensures |Below(d)| == d
  {
    if d > 0 {
      BelowCard(d - 1);
    }
  }

  lemma {:induction false} ImageCard(p: seq<nat>)
    requires forall i, j :: 0 <= i < j < |p| ==> p[i] != p[j]
    ensures |Image(p)| == |p|
  {
    if |p| > 0 {
      var q := p[..|p| - 1];
      ImageCard(q);
      assert p[|p| - 1] !in Image(q);
    }
  }

  lemma {:induction false} SubsetCard(a: set<nat>, b: set<nat>)
    requires a <= b
    ensures |a| <= |b|
    decreases |a|
  {
    if a != {} {
      var y :| y in a;
      SubsetCard(a - {y}, b - {y});
    }
  }

  /** A permutation is onto: sorting p gives exactly 0, 1, ..., d-1. */
  lemma PermutationIsOnto(p: seq<nat>, d: nat)
    requires IsPermutation(p, d)
    ensures Image(p) == Below(d)
  {
    ImageCard(p);
    BelowCard(d);
    if Image(p) != Below(d) {
      assert Image(p) <= Below(d);
      var x :| x in Below(d) && x !in Image(p);
      SubsetCard(Image(p), Below(d) - {x});
    }
  }

  // ---------------------------------------------------------------------------------------
  // The dense reference matrix

  /** `permutation_matrix_old(d)`: the identity with its rows permuted, row i == e_{p[i]}. */
  function PermutationMatrix(p: seq<nat>): (m: Matrix)
    requires IndicesBelow(p, |p|)
    ensures |m| == |p| && HasWidth(m, |p|)
    ensures forall i :: 0 <= i < |p| ==> m[i] == Unit(|p|, p[i])
  {
    var m := TakeRows(Identity(|p|), p);
    forall i | 0 <= i < |p| ensures m[i] == Unit(|p|, p[i]) {
      assert m[i] == Identity(|p|)[p[i]];
    }
    m
  }

  /** H GP H diag(b) for a given middle factor GP. */
  function Sandwich(b: seq<int>, gp: Matrix): (m: Matrix)
    requires IsPow2(|b|) && |gp| == |b| && HasWidth(gp, |b|)
    ensures |m| == |b| && HasWidth(m, |b|)
  {
    var d := |b|;
    MatMul(WhtCols(gp, d), WhtCols(Diag(Reals(b)), d), d)
  }

  /** `create_gaussian_iid_matrix(b, g, p)` as written: its middle factor is
      `np.take(np.diag(g), p, axis=0)`, the rows of diag(g) permuted (Pi_P diag(g)). */
  function CreateGaussianIidMatrix(b: seq<int>, g: Vector, p: seq<nat>): (m: Matrix)
    requires IsPow2(|b|) && |g| == |b| && IsPermutation(p, |b|)
    ensures |m| == |b| && HasWidth(m, |b|)
  {
    Sandwich(b, TakeRows(Diag(g), p))
  }

  /** The dense matrix H diag(g) Pi_P H diag(b) that the fast chain applies, with the middle
      factor `np.dot(np.diag(G), P)` for the permutation matrix P. */
  function IntendedGaussianIidMatrix(b: seq<int>, g: Vector, p: seq<nat>): (m: Matrix)
    requires IsPow2(|b|) && |g| == |b| && IsPermutation(p, |b|)
    ensures |m| == |b| && HasWidth(m, |b|)
  {
    Sandwich(b, MatMul(Diag(g), PermutationMatrix(p), |b|))
  }

  lemma SandwichApplied(b: seq<int>, gp: Matrix, x: Vector)
    requires IsPow2(|b|) && |gp| == |b| && HasWidth(gp, |b|) && |x| == |b|
    ensures MatVec(Sandwich(b, gp), x) == Wht(MatVec(gp, Wht(Mul(Reals(b), x))))
  {
    var d := |b|;
    var hb := WhtCols(Diag(Reals(b)), d);
    MatMulApplied(WhtCols(gp, d), hb, x);
    WhtColsApplied(Diag(Reals(b)), x);
    DiagApplied(Reals(b), x);
    WhtColsApplied(gp, MatVec(hb, x));
  }

  /** The intended dense matrix applied to x is the five-stage chain of the fast path:
      multiply by b, H, permute by p, multiply by g, H. */
  lemma IntendedApplied(b: seq<int>, g: Vector, p: seq<nat>, x: Vector)
    requires IsPow2(|b|) && |g| == |b| && IsPermutation(p, |b|) && |x| == |b|
    ensures MatVec(IntendedGaussianIidMatrix(b, g, p), x)
         == Wht(Mul(g, Take(Wht(Mul(Reals(b), x)), p)))
  {
    var d := |b|;
    var y := Wht(Mul(Reals(b), x));
    var pm := PermutationMatrix(p);
    SandwichApplied(b, MatMul(Diag(g), pm, d), x);
    MatMulApplied(Diag(g), pm, y);
    TakeRowsApplied(Identity(d), p, y);
    IdentityApplied(y);
    DiagApplied(g, Take(y, p));
  }

  /** The dense matrix as written applied to x is the intended one for the gathered
      g'[i] == g[p[i]]: the dense path multiplies by G before permuting. */
  lemma AsWrittenApplied(b: seq<int>, g: Vector, p: seq<nat>, x: Vector)
    requires IsPow2(|b|) && |g| == |b| && IsPermutation(p, |b|) && |x| == |b|
    ensures MatVec(CreateGaussianIidMatrix(b, g, p), x)
         == MatVec(IntendedGaussianIidMatrix(b, Take(g, p), p), x)
  {
    var y := Wht(Mul(Reals(b), x));
    SandwichApplied(b, TakeRows(Diag(g), p), x);
    TakeRowsApplied(Diag(g), p, y);
    DiagApplied(g, y);
    IntendedApplied(b, Take(g, p), p, x);
    TakeMul(g, y, p);
  }

  /** The probe input b[0] e_0. */
  function ProbeInput(b: seq<int>): (r: Vector)
    requires |b| > 0
    ensures |r| == |b| && r[0] == b[0] as real
    ensures forall i :: 0 < i < |b| ==> r[i] == 0.0
  {
    seq(|b|, i => if i == 0 then b[0] as real else 0.0)
  }

  /** b (b[0] e_0) == e_0, because b[0] * b[0] == 1. */
  lemma ProbeSigns(b: seq<int>)
    requires |b| > 0 && IsSignVector(b)
    ensures Mul(Reals(b), ProbeInput(b)) == Unit(|b|, 0)
  {
    var r := Mul(Reals(b), ProbeInput(b));
    assert r[0] == (b[0] * b[0]) as real;
    forall i | 0 <= i < |b| ensures r[i] == Unit(|b|, 0)[i] {
    }
  }

  /** With x0 = b[0] e_0 the first two stages give the all-ones vector, so the dense
      matrix as written yields H (g gathered by p) and the intended one yields H g. */
  lemma Probe(b: seq<int>, g: Vector, p: seq<nat>)
    requires IsPow2(|b|) && IsSignVector(b) && |g| == |b| && IsPermutation(p, |b|)
    ensures MatVec(CreateGaussianIidMatrix(b, g, p), ProbeInput(b)) == Wht(Take(g, p))
    ensures MatVec(IntendedGaussianIidMatrix(b, g, p), ProbeInput(b)) == Wht(g)
  {
    var d := |b|;
    var x0 := ProbeInput(b);
    ProbeSigns(b);
    WhtUnit(d);
    TakeOnes(d, p);
    MulOnes(Take(g, p));
    MulOnes(g);
    AsWrittenApplied(b, g, p, x0);
    IntendedApplied(b, Take(g, p), p, x0);
    IntendedApplied(b, g, p, x0);
  }

  /** The dense matrix as written and the intended one act alike on every input. */
  ghost predicate AgreeEverywhere(b: seq<int>, g: Vector, p: seq<nat>)
    requires IsPow2(|b|) && |g| == |b| && IsPermutation(p, |b|)
  {
    forall x :: |x| == |b| ==>
      MatVec(CreateGaussianIidMatrix(b, g, p), x) == MatVec(IntendedGaussianIidMatrix(b, g, p), x)
  }

  /** g is unchanged by the gather through p. */
  predicate FixedByPermutation(g: Vector, p: seq<nat>)
    requires |p| == |g| && IndicesBelow(p, |g|)
  {
    forall i :: 0 <= i < |p| ==> g[p[i]] == g[i]
  }

  /** Gathering a fixed g through p gives g back. */
  lemma GatherFixed(g: Vector, p: seq<nat>)
    requires |p| == |g| && IndicesBelow(p, |g|) && FixedByPermutation(g, p)
    ensures Take(g, p) == g
  {
    var t := Take(g, p);
    forall i | 0 <= i < |g| ensures t[i] == g[i] {
    }
  }

  lemma AgreeWhenFixed(b: seq<int>, g: Vector, p: seq<nat>)
    requires IsPow2(|b|) && |g| == |b| && IsPermutation(p, |b|)
    requires FixedByPermutation(g, p)
    ensures AgreeEverywhere(b, g, p)
  {
    GatherFixed(g, p);
    forall x | |x| == |b|
      ensures MatVec(CreateGaussianIidMatrix(b, g, p), x) == MatVec(IntendedGaussianIidMatrix(b, g, p), x)
    {
      AsWrittenApplied(b, g, p, x);
    }
  }

  /** One instance of `AgreeEverywhere`. */
  lemma AgreeAt(b: seq<int>, g: Vector, p: seq<nat>, x: Vector)
    requires IsPow2(|b|) && |g| == |b| && IsPermutation(p, |b|) && |x| == |b|
    requires AgreeEverywhere(b, g, p)
    ensures MatVec(CreateGaussianIidMatrix(b, g, p), x) == MatVec(IntendedGaussianIidMatrix(b, g, p), x)
  {
  }

  lemma FixedWhenAgree(b: seq<int>, g: Vector, p: seq<nat>)
    requires IsPow2(|b|) && IsSignVector(b) && |g| == |b| && IsPermutation(p, |b|)
    requires AgreeEverywhere(b, g, p)
    ensures FixedByPermutation(g, p)
  {
    var gathered := Take(g, p);
    Probe(b, g, p);
    AgreeAt(b, g, p, ProbeInput(b));
    WhtInjective(gathered, g);
    forall i | 0 <= i < |p| ensures g[p[i]] == g[i] {
      assert gathered[i] == g[i];
    }
  }

  /** The dense path as written agrees with the fast path on every input exactly when
      g[p[i]] == g[i] for every i. */
  lemma AsWrittenAgreesIff(b: seq<int>, g: Vector, p: seq<nat>)
    requires IsPow2(|b|) && IsSignVector(b) && |g| == |b| && IsPermutation(p, |b|)
    ensures AgreeEverywhere(b, g, p) <==> FixedByPermutation(g, p)
  {
    if FixedByPermutation(g, p) {
      AgreeWhenFixed(b, g, p);
    }
    if AgreeEverywhere(b, g, p) {
      FixedWhenAgree(b, g, p);
    }
  }

  /** A concrete input on which the two paths differ: d = 2, b = (1, 1), g = (1, 2),
      p = (1, 0), x = (1, 0) gives (3, 1) on the dense path and (3, -1) on the fast path. */
  lemma AsWrittenCounterexample()
    ensures MatVec(CreateGaussianIidMatrix([1, 1], [1.0, 2.0], [1, 0]), [1.0, 0.0]) == [3.0, 1.0]
    ensures MatVec(IntendedGaussianIidMatrix([1, 1], [1.0, 2.0], [1, 0]), [1.0, 0.0]) == [3.0, -1.0]
  {
    var b: seq<int>, g: Vector, p: seq<nat>, x: Vector := [1, 1], [1.0, 2.0], [1, 0], [1.0, 0.0];
    assert IsPow2(2);
    assert Mul(Reals(b), x) == [1.0, 0.0];
    WhtOfPair(1.0, 0.0);
    assert Take([1.0, 1.0], p) == [1.0, 1.0];
    assert Take(g, p) == [2.0, 1.0];
    assert Mul(g, [1.0, 1.0]) == [1.0, 2.0];
    assert Mul([2.0, 1.0], [1.0, 1.0]) == [2.0, 1.0];
    WhtOfPair(1.0, 2.0);
    WhtOfPair(2.0, 1.0);
    AsWrittenApplied(b, g, p, x);
    IntendedApplied(b, g, p, x);
    IntendedApplied(b, Take(g, p), p, x);
  }

  lemma WhtOfPair(a: real, c: real)
    ensures IsPow2(2) && Wht([a, c]) == [a + c, a - c]
  {
    assert IsPow2(2);
    assert [a, c][..1] == [a] && [a, c][1..] == [c];
  }

  // ---------------------------------------------------------------------------------------
  // The fast paths

  /** The row widths w for which `b * x` broadcasts and every transform in the chain has a
      power-of-two length, for a block of width d: w == d, a one-entry row (repeated d times),
      or, when d == 1, a row of power-of-two width (the one-entry b is repeated instead). */
  predicate ChainAccepts(d: nat, w: nat)
  {
    w == d || w == 1 || (d == 1 && IsPow2(w))
  }

  /** The vector of length d that the dense block matrix must be applied to for the fast
      chain on x to agree with it: x itself, a one-entry x repeated d times, or, for d == 1,
      the one-entry sum of x (H keeps the sum of its input in its first entry, and the gather
      by the one-entry p keeps only that entry). */
  function ChainInput(x: Vector, d: nat): (r: Vector)
    requires ChainAccepts(d, |x|)
    ensures |r| == d
    ensures |x| == d || |x| == 1 ==> r == Broadcast(x, d)
  {
    if |x| == d || |x| == 1 then Broadcast(x, d) else [Sum(x)]
  }

  /** For a one-column block every accepted row reaches the block as the sum of its entries. */
  lemma ChainInputOneBlock(x: Vector)
    requires ChainAccepts(1, |x|)
    ensures ChainInput(x, 1) == [Sum(x)]
  {
    if |x| == 1 {
      assert x[1..] == [] && Sum(x) == x[0];
      assert x == [x[0]];
    }
  }

  /** A one-entry block is the 1 x 1 matrix g b: both transforms of length 1 are the identity. */
  lemma {:induction false} OneBlockApplied(b: seq<int>, g: Vector, p: seq<nat>, s: real)
    requires |b| == 1 && |g| == 1 && IsPermutation(p, 1)
    ensures MatVec(IntendedGaussianIidMatrix(b, g, p), [s]) == [g[0] * (Reals(b)[0] * s)]
  {
    assert IsPow2(1);
    assert p == [0];
    var y := Mul(Reals(b), [s]);
    assert |y| == 1 && y[0] == Reals(b)[0] * [s][0];
    MulEqual(Reals(b)[0], [s][0], s);
    assert Wht(y) == y && Take(y, p) == y;
    var z := Mul(g, y);
    assert |z| == 1 && z[0] == g[0] * y[0];
    MulEqual(g[0], y[0], Reals(b)[0] * s);
    var e := g[0] * (Reals(b)[0] * s);
    assert z[0] == e;
    assert z == [e];
    assert Wht(z) == z;
    IntendedApplied(b, g, p, [s]);
  }

  /** With a one-entry block the chain sees x of any power-of-two width: b * x scales it, H
      puts its sum first, the gather keeps that entry, and the last H is the identity. */
  lemma {:induction false} OneBlockChain(b: seq<int>, g: Vector, p: seq<nat>, x: Vector)
    requires |b| == 1 && |g| == 1 && IsPermutation(p, 1) && IsPow2(|x|)
    ensures Wht(Mul(g, Take(Wht(Mul(Broadcast(Reals(b), |x|), x)), p)))
         == MatVec(IntendedGaussianIidMatrix(b, g, p), [Sum(x)])
  {
    var y := Mul(Broadcast(Reals(b), |x|), x);
    WhtBroadcastHead(Reals(b), x);
    var u := Mul(Reals(b), [Sum(x)]);
    assert IsPow2(1);
    assert |u| == 1 && u[0] == Reals(b)[0] * [Sum(x)][0];
    MulEqual(Reals(b)[0], [Sum(x)][0], Sum(x));
    assert Wht(u) == u;
    assert p == [0];
    var e := Reals(b)[0] * Sum(x);
    var h := Wht(y);
    assert h[0] == e;
    var t := Take(h, p);
    assert |t| == 1 && t[0] == h[0];
    assert t == [e];
    assert u[0] == e;
    var t2 := Take(u, p);
    assert |t2| == 1 && t2[0] == u[0];
    assert t2 == [e];
    IntendedApplied(b, g, p, [Sum(x)]);
  }

  /** `create_gaussian_iid_matrix_fast(b, g, p, x)`: the five stages on one row, with the
      multiplication by g done in place on the intermediate result. `b * x` broadcasts
      whichever operand has one entry. It computes the intended dense matrix applied to the
      row as the chain sees it. */
  method CreateGaussianIidMatrixFast(b: seq<int>, g: Vector, p: seq<nat>, x: Vector)
    returns (result: Vector)
    requires IsPow2(|b|) && |g| == |b| && IsPermutation(p, |b|)
    requires ChainAccepts(|b|, |x|)
    ensures result == MatVec(IntendedGaussianIidMatrix(b, g, p), ChainInput(x, |b|))
    ensures |x| == |b| || |x| == 1 ==>
      result == MatVec(IntendedGaussianIidMatrix(b, g, p), Broadcast(x, |b|))
  {
    var width := if |b| == 1 then |x| else |b|;
    result := Mul(Broadcast(Reals(b), width), Broadcast(x, width));
    result := Wht(result);
    result := Take(result, p);
    ghost var taken := result;
    for i := 0 to |result|
      invariant |result| == |taken| == |g|
      invariant forall k :: 0 <= k < i ==> result[k] == g[k] * taken[k]
      invariant forall k :: i <= k < |result| ==> result[k] == taken[k]
    {
      result := result[i := g[i] * result[i]];
    }
    forall k | 0 <= k < |result| ensures result[k] == Mul(g, taken)[k] { }
    assert result == Mul(g, taken);
    result := Wht(result);
    if |x| == |b| || |x| == 1 {
      IntendedApplied(b, g, p, Broadcast(x, |b|));
    } else {
      OneBlockChain(b, g, p, x);
    }
  }

  /** `create_gaussian_iid_matrix_fast_one_step(B, G, P, X)` on a d x c matrix whose columns
      are the (padded) input rows. */
  function CreateGaussianIidMatrixFastOneStep(b: seq<int>, g: Vector, p: seq<nat>, x: Matrix, c: nat)
    : (r: Matrix)
    requires IsPow2(|b|) && |g| == |b| && IsPermutation(p, |b|) && |x| == |b| && HasWidth(x, c)
    ensures |r| == |b| && HasWidth(r, c)
  {
    var r1 := MatMul(Diag(Reals(b)), x, c);
    var r2 := WhtCols(r1, c);
    var r3 := TakeRows(r2, p);
    var r4 := MatMul(Diag(g), r3, c);
    WhtCols(r4, c)
  }

  /** The first three batched stages, column by column. */
  lemma OneStepFirstStages(b: seq<int>, p: seq<nat>, x: Matrix, c: nat, k: nat)
    requires IsPow2(|b|) && IsPermutation(p, |b|) && |x| == |b| && HasWidth(x, c) && k < c
    ensures Col(TakeRows(WhtCols(MatMul(Diag(Reals(b)), x, c), c), p), k)
         == Take(Wht(Mul(Reals(b), Col(x, k))), p)
  {
    var r2 := WhtCols(MatMul(Diag(Reals(b)), x, c), c);
    DiagWhtColumn(Reals(b), x, c, k);
    ColTakeRows(r2, p, k);
  }

  /** Column k of H diag(g) m is H (g * column k of m): two batched stages, column by column. */
  lemma DiagWhtColumn(g: Vector, r3: Matrix, c: nat, k: nat)
    requires IsPow2(|g|) && |r3| == |g| && HasWidth(r3, c) && k < c
    ensures Col(WhtCols(MatMul(Diag(g), r3, c), c), k) == Wht(Mul(g, Col(r3, k)))
  {
    var r4 := MatMul(Diag(g), r3, c);
    ColMatMul(Diag(g), r3, c, k);
    DiagApplied(g, Col(r3, k));
    ColWhtCols(r4, c, k);
  }

  /** Column k of the batched result is the single-row result for column k of the input. */
  lemma OneStepColumns(b: seq<int>, g: Vector, p: seq<nat>, x: Matrix, c: nat, k: nat)
    requires IsPow2(|b|) && |g| == |b| && IsPermutation(p, |b|) && |x| == |b| && HasWidth(x, c)
    requires k < c
    ensures Col(CreateGaussianIidMatrixFastOneStep(b, g, p, x, c), k)
         == MatVec(IntendedGaussianIidMatrix(b, g, p), Col(x, k))
  {
    var r3 := TakeRows(WhtCols(MatMul(Diag(Reals(b)), x, c), c), p);
    OneStepFirstStages(b, p, x, c, k);
    DiagWhtColumn(g, r3, c, k);
    IntendedApplied(b, g, p, Col(x, k));
  }

  // ---------------------------------------------------------------------------------------
  // Row scaling by S

  /** `create_approximation_matrix(S, HGPHB)`: factor * diag(S) * M, where factor stands for
      1 / (sigma sqrt d). */
  function CreateApproximationMatrix(factor: real, s: Vector, m: Matrix): (v: Matrix)
    requires |m| == |s| && HasWidth(m, |s|)
    ensures |v| == |s| && HasWidth(v, |s|)
  {
    ScaleMat(factor, MatMul(Diag(s), m, |s|))
  }

  /** `create_approximation_matrix_fast(S, x)`: factor * S * x. */
  function CreateApproximationMatrixFast(factor: real, s: Vector, x: Vector): (v: Vector)
    requires |x| == |s|
    ensures |v| == |s| && forall i :: 0 <= i < |s| ==> v[i] == factor * (s[i] * x[i])
  {
    Scale(factor, Mul(s, x))
  }

  /** The two forms of the S scaling agree: (factor diag(S) M) x == factor * S * (M x). */
  lemma ApproximationMatricesAgree(factor: real, s: Vector, m: Matrix, x: Vector)
    requires |m| == |s| == |x| && HasWidth(m, |s|)
    ensures MatVec(CreateApproximationMatrix(factor, s, m), x)
         == CreateApproximationMatrixFast(factor, s, MatVec(m, x))
  {
    var dm := MatMul(Diag(s), m, |s|);
    ScaleMatApplied(factor, dm, x);
    MatMulApplied(Diag(s), m, x);
    DiagApplied(s, MatVec(m, x));
  }
}

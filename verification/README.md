# Fastfood kernel approximation, modelled in Dafny

This project models the `Fastfood` estimator of `sklearn/kernel_approximation.py`. The estimator approximates the RBF kernel with structured random features. For an input row `x` of width `d` (a power of two), each block `(B, G, S, P)` computes

    V x = 1 / (sigma * sqrt(d)) * S * H (G * Pi_P (H (B * x)))

- `B` is a sign vector.
- `P` is a permutation, with `Pi_P(y)[i] == y[p[i]]`.
- `G` and `S` are real vectors.
- `H` is the unnormalised Walsh-Hadamard transform.

Several blocks are stacked to reach `n` output features. The projected row is then mapped through cosines and sines. In 'accuracy' mode the map is `[cos | sin] / sqrt(n)`; in the other mode it is `cos(. + U) * sqrt(2 / n)`, with random phases `U`.

The model is split into modules that follow the source:

- **`Planner`** (`planner.dfy`) holds `is_number_power_of_two` and `enforce_dimensionality_constraints`. It is exact integer arithmetic over unbounded `int`/`nat`.
- **`Hadamard`** (`hadamard.dfy`) defines `H` by Sylvester's recursion `H_1 = [1]`, `H_2m = [[H_m, H_m], [H_m, -H_m]]`, computed as the butterfly on the two halves of a vector. Its partner properties are linearity and the involution `H H = d I`, from which injectivity follows.
- **`LinAlg`** (`linalg.dfy`) holds vectors and matrices over `real`: `np.diag`, `np.take`, matrix products, and column extraction.
- **`Structured`** (`structured.dfy`) holds one block:
  - the dense matrix `create_gaussian_iid_matrix`;
  - the fast single-row chain `create_gaussian_iid_matrix_fast`, an imperative method that multiplies by `g` in place. `b * x` broadcasts whichever operand has one entry: a one-entry row against `d` signs, or, when `d == 1`, the single sign against a row of any power-of-two width, whose sum then reaches the block because `H` puts the sum first and the gather keeps only that entry;
  - the column-batched `create_gaussian_iid_matrix_fast_one_step`;
  - the two forms of `create_approximation_matrix`.
- **`Features`** (`features.dfy`) holds the stacking of blocks, the layouts of `phi` and `phi_fast`, and the results of `transform` and `transform_fast` as functions of the fitted state.
- **`Estimator`** (`fastfood.dfy`) holds the class `Fastfood` with the fields `fit` sets. Its methods are `Fit`, `PadWithZeros`, `PhiFast` (which overwrites a two-dimensional array in place in the reduced mode), `Transform` and `TransformFast`. The last two loop over rows and blocks the way the source does, and each is proved equal to its specification function.

Floating-point primitives are left uninterpreted. They are the fields `cos`, `sin`, `sqrt` and `recip` of a `Numerics` value given to the estimator; `recip(t)` stands for `1 / t`. The random draws `fit` makes are arguments of `Fit`, constrained by a precondition:

- `B` is a sign vector;
- `G` and `S` have length `d`;
- `P` is a permutation of `0 .. d-1`;
- `U` has length `n` with entries in `[0, 2 pi)` when not in 'accuracy' mode, and is absent in 'accuracy' mode.

Errors are values of `Results.Error`:

- `NotFitted` for an attribute read before `fit`;
- `ShapeMismatch` for a numpy broadcasting or product-shape error;
- `ZeroDivision` for a Python division by zero;
- `NonFiniteToInt` for `int` applied to an infinite float (OverflowError) or to NaN (ValueError).

## Model

| member | source | states |
|---|---|---|
| Planner.IsNumberPowerOfTwo | sklearn/kernel_approximation.py:513-515 | `is_number_power_of_two(n)` is true exactly when n is a positive power of two |
| Planner.BitTestDecidesPow2 | sklearn/kernel_approximation.py:515 | the test `n != 0 and n & (n - 1) == 0`, with `&` defined bit by bit, holds exactly for the positive powers of two |
| Planner.EnforceDimensionalityConstraints | sklearn/kernel_approximation.py:570-581 | fails exactly when d == 0: the width is then the float 0.0, `divmod` yields a non-finite quotient and `int` of it raises (NonFiniteToInt). Otherwise the working width is a power of two that is at least d: equal to d when d is a power of two, greater otherwise. The realized n equals the number of blocks times the width, and lies in [n, n + width) |
| Planner.RoundUpToMultiple | sklearn/kernel_approximation.py:575-580 | `divmod` and its correction round n up to the next multiple of the width, staying below n + width, and leave an exact multiple unchanged |
| Planner.EnforceSmallestPowerOfTwo | sklearn/kernel_approximation.py:572-574 | the working width is at most every power of two that is at least d, i.e. it is the smallest one |
| Planner.EnforceExactWhenDivisible | sklearn/kernel_approximation.py:575-581 | when the power of two d divides n, the plan is (d, n, n / d) |
| Planner.PlanScenarios | sklearn/kernel_approximation.py:570-581 | 10 features and 100 components plan width 16, 7 blocks and n = 112; 16 and 16 plan width 16, one block and n = 16 |
| Hadamard.Wht | sklearn/kernel_approximation.py:583-585 | `fht1` unnormalised, on a power-of-two length: the result has the input's length; what it computes is pinned by WhtHalves, WhtFirst and WhtInvolution |
| Hadamard.WhtHalves | sklearn/kernel_approximation.py:583-585 | the two halves of H v are H(lo) + H(hi) and H(lo) - H(hi), the butterfly of Sylvester's recursion |
| Hadamard.WhtAdd | sklearn/kernel_approximation.py:583-585 | H(u + v) == H u + H v |
| Hadamard.WhtSub | sklearn/kernel_approximation.py:583-585 | H(u - v) == H u - H v |
| Hadamard.WhtScale | sklearn/kernel_approximation.py:583-585 | H(c v) == c H v |
| Hadamard.WhtFirst | sklearn/kernel_approximation.py:583-585 | the first entry of H v is the sum of v (the first row of H is all ones) |
| Hadamard.WhtBroadcastHead | sklearn/kernel_approximation.py:625-626 | for a one-entry b, the first entry of H(b * x) is b[0] times the sum of x |
| Hadamard.WhtUnit | sklearn/kernel_approximation.py:606-609 | the first column of the Hadamard matrix is all ones |
| Hadamard.WhtInvolution | sklearn/kernel_approximation.py:606-609 | H H v == d v: the transform is its own inverse up to the factor d |
| Hadamard.WhtInjective | sklearn/kernel_approximation.py:583-585 | H u == H v implies u == v |
| Hadamard.WhtLinComb | sklearn/kernel_approximation.py:593-601 | H of a linear combination of columns is the same combination of their transforms |
| Hadamard.WhtColsApplied | sklearn/kernel_approximation.py:593-601 | `hadamard(X)`, which transforms every column, applied to x equals H applied to X x |
| Hadamard.WhtCols | sklearn/kernel_approximation.py:593-601 | `hadamard(X)` keeps the shape of X; ColWhtCols says it transforms every column |
| Hadamard.ColWhtCols | sklearn/kernel_approximation.py:593-601 | column j of `hadamard(X)` is H applied to column j of X |
| LinAlg.MulBroadcastOne | sklearn/kernel_approximation.py:625 | `b * x` with a one-entry b is x scaled by that entry |
| Structured.IsSignVector | sklearn/kernel_approximation.py:527-528 | (predicate) every entry of `binary_vector` is 1 or -1 |
| Structured.IsPermutation | sklearn/kernel_approximation.py:523-525 | (predicate) p has length d, entries below d and no repeats, as `rng.permutation(d)` returns |
| Structured.PermutationIsOnto | sklearn/kernel_approximation.py:523-525 | a drawn permutation of length d takes every value below d |
| Structured.PermutationMatrix | sklearn/kernel_approximation.py:520-521 | `rng.permutation(np.identity(d))` as a matrix: d x d, with row i the unit vector e_p[i] |
| Structured.CreateGaussianIidMatrix | sklearn/kernel_approximation.py:611-620 | the dense matrix as written is d x d; AsWrittenApplied states what it computes |
| Structured.IntendedGaussianIidMatrix | sklearn/kernel_approximation.py:616 | the dense matrix with the commented-out middle factor `np.dot(np.diag(G), P)` is d x d; IntendedApplied states what it computes |
| Structured.IntendedApplied | sklearn/kernel_approximation.py:616 | the dense matrix H diag(g) P H diag(b), with P the permuted identity, applied to x is the five-stage chain H(g * Pi_p(H(b * x))) |
| Structured.AsWrittenApplied | sklearn/kernel_approximation.py:611-620 | the dense matrix as written applied to x equals the intended matrix for the gathered g'[i] == g[p[i]] |
| Structured.Probe | sklearn/kernel_approximation.py:611-620 | on the input b[0] e_0, the dense matrix as written gives H(g gathered by p), and the intended one gives H g |
| Structured.AgreeWhenFixed | sklearn/kernel_approximation.py:611-630 | if g[p[i]] == g[i] for every i, the dense matrix as written and the fast chain agree on every input |
| Structured.FixedWhenAgree | sklearn/kernel_approximation.py:611-630 | if the dense matrix as written and the fast chain agree on every input, then g[p[i]] == g[i] for every i |
| Structured.AsWrittenAgreesIff | sklearn/kernel_approximation.py:611-630 | the two agree on every input exactly when g is fixed by the permutation |
| Structured.AsWrittenCounterexample | sklearn/kernel_approximation.py:617 | with b = (1, 1), g = (1, 2), p = (1, 0) and x = (1, 0), the dense matrix as written gives (3, 1) and the intended one (3, -1) |
| Structured.GatherFixed | sklearn/kernel_approximation.py:617 | gathering a g that is fixed by p gives g back |
| Structured.ChainAccepts | sklearn/kernel_approximation.py:625-629 | (predicate) the row widths the chain accepts for a block of width d: d, 1, or any power of two when d == 1 |
| Structured.ChainInput | sklearn/kernel_approximation.py:625-627 | the length-d vector the block sees: the row itself or a one-entry row repeated (`Broadcast`), or, for d == 1 and a wider row, the one-entry sum of the row |
| Structured.ChainInputOneBlock | sklearn/kernel_approximation.py:625-627 | for d == 1 every accepted row reaches the block as the one-entry sum of its entries |
| Structured.OneBlockApplied | sklearn/kernel_approximation.py:611-620 | a one-entry block's intended matrix is the 1 x 1 matrix g[0] b[0] |
| Structured.OneBlockChain | sklearn/kernel_approximation.py:622-630 | for d == 1 and a row x of power-of-two width, the chain (b broadcast against x, H, gather, times g, H) equals the block's matrix applied to the sum of x |
| Structured.CreateGaussianIidMatrixFast | sklearn/kernel_approximation.py:622-630 | the single-row chain (including the in-place `result *= g`, and `b * x` broadcasting a one-entry x, or a one-entry b when d == 1) equals the intended dense matrix applied to ChainInput of the row; for a row of width d or 1 that is the broadcast row |
| Structured.CreateGaussianIidMatrixFastOneStep | sklearn/kernel_approximation.py:648-657 | the batched chain on a d x c matrix keeps its shape; OneStepColumns states what each column becomes |
| Structured.OneStepFirstStages | sklearn/kernel_approximation.py:651-653 | column k after the first three batched stages is Pi_p(H(b * x_k)) |
| Structured.DiagWhtColumn | sklearn/kernel_approximation.py:654-655 | column k of H diag(g) M is H(g * M_k) |
| Structured.OneStepColumns | sklearn/kernel_approximation.py:648-657 | column k of the batched result is the intended matrix applied to column k of the input, i.e. the fast result on that row |
| Structured.CreateApproximationMatrix | sklearn/kernel_approximation.py:659-662 | factor diag(S) M is d x d; ApproximationMatricesAgree states what it computes |
| Structured.CreateApproximationMatrixFast | sklearn/kernel_approximation.py:664-666 | entry i of the fast scaling is factor * S[i] * x[i] |
| Structured.ApproximationMatricesAgree | sklearn/kernel_approximation.py:659-666 | (factor diag(S) M) x == factor * S * (M x): the dense and the fast S scaling agree |
| Features.TrigRow | sklearn/kernel_approximation.py:682 | the [cos, sin] layout has width 2w; entry c is the scaled cosine of z[c], and entry w + c its sine |
| Features.CosRows | sklearn/kernel_approximation.py:684 | `np.cos(X + U)`: entry (i, j) is the cosine of X[i][j] plus the phase of column j |
| Features.TrigRows | sklearn/kernel_approximation.py:682 | `np.hstack([cos(X), sin(X)]) / sqrt(w)`: row i has width 2w and is the [cos, sin] layout of X[i] scaled by 1 / sqrt(w) |
| Features.PhiFastRows | sklearn/kernel_approximation.py:680-685 | 'accuracy' mode gives width 2w. The other mode gives width w, fails with ShapeMismatch when U does not broadcast against the rows, and otherwise fails with ZeroDivision exactly when w == 0 |
| Features.Phi | sklearn/kernel_approximation.py:675-678 | `phi(V, X)` has 2 (rows of V) rows and one column per row of X; PhiColumn states each column |
| Features.PhiColumn | sklearn/kernel_approximation.py:675-678 | column r of `phi(V, X)` is the [cos, sin] layout of V x_r, scaled by 1 / sqrt(rows of V) |
| Features.TrigColumn | sklearn/kernel_approximation.py:678 | column r of `vstack([cos(M), sin(M)])` scaled by s is the [cos, sin] layout of column r of M |
| Features.BlockProjection | sklearn/kernel_approximation.py:774-775 | one block's part of a projected row has width d; BlockMatrixApplied ties it to the dense matrix |
| Features.Projection | sklearn/kernel_approximation.py:771-777 | a projected row has width (number of blocks) * d |
| Features.ProjectionLayout | sklearn/kernel_approximation.py:771-777 | block j fills columns [j d, (j + 1) d) of the projected row, in block order |
| Features.ApproximationMatrices | sklearn/kernel_approximation.py:755-760 | `to_stack` holds one d x d matrix per block |
| Features.VStack | sklearn/kernel_approximation.py:761 | `np.vstack` of the blocks' matrices has (number of blocks) * d rows of width d; StackedApplied states what it computes |
| Features.BlockMatrixApplied | sklearn/kernel_approximation.py:756-759 | one block's dense matrix applied to x is that block's fast projection, with G gathered through P for the matrix as written |
| Features.StackedApplied | sklearn/kernel_approximation.py:755-761 | the stacked dense matrices applied to x give the fast projection of x for the equivalent blocks |
| Features.DenseTransform | sklearn/kernel_approximation.py:753-764 | the dense transform fails with ShapeMismatch exactly when the padded width is not d. Otherwise it keeps the row count and has width 2n in both modes |
| Features.FastTransform | sklearn/kernel_approximation.py:766-784 | with no rows, the result is `phi_fast` of the single empty row; a width the chain does not accept (neither d nor 1, nor a power of two when d == 1) fails with ShapeMismatch; in 'accuracy' mode every accepted width succeeds; a success keeps the row count and has width 2n in 'accuracy' mode, n otherwise |
| Features.FastRowsSnoc | sklearn/kernel_approximation.py:770-778 | appending one projected row to `mapped_examples` extends the list of projections by that row |
| Features.DenseIsFastFor | sklearn/kernel_approximation.py:753-784 | on a non-empty batch of padded rows, the dense transform equals `transform_fast` in 'accuracy' mode run with the equivalent blocks |
| Features.IntendedDenseIsFast | sklearn/kernel_approximation.py:616 | with the intended dense matrices, the dense transform equals `transform_fast` in 'accuracy' mode on every non-empty batch |
| Features.DenseIsFastWithGatheredG | sklearn/kernel_approximation.py:753-784 | the dense transform as written equals `transform_fast` in 'accuracy' mode with every G gathered through its P |
| Features.DenseIsFastWhenFixed | sklearn/kernel_approximation.py:753-784 | when every block's G is fixed by its P, the dense transform as written equals `transform_fast` in 'accuracy' mode |
| Estimator.ToMatrix | sklearn/kernel_approximation.py:779 | `np.matrix(rows)` holds the rows; an empty list gives one row of width zero |
| Estimator.CosRowsOfEntries | sklearn/kernel_approximation.py:684 | an array whose every entry is the cosine of the old entry plus its column's phase holds `cos(X + U)` |
| Estimator.Fastfood.constructor | sklearn/kernel_approximation.py:505-511 | records sigma, n_components and the trade-off; the estimator starts unfitted |
| Estimator.Fastfood.DrawsMatch | sklearn/kernel_approximation.py:554-568 | (predicate) the draws of one `fit`: one valid `(B, G, P, S)` per stacked copy, and U of length n with entries in [0, 2 pi) exactly when not in 'accuracy' mode |
| Estimator.Fastfood.Fit | sklearn/kernel_approximation.py:687-700 | a zero-width batch fails with NonFiniteToInt (the planner's `int` of a non-finite quotient) and changes nothing. Otherwise the state is the plan of `enforce_dimensionality_constraints` and the pad width d - d_orig (so padded rows have width d); the blocks and U are the draws, and the invariant holds: one valid block per stacked copy, U absent exactly in 'accuracy' mode and of length n otherwise |
| Estimator.Fastfood.PadWithZeros | sklearn/kernel_approximation.py:749-751 | keeps the row count and every original entry, and appends exactly `number_of_features_to_pad_with_zeros` zeros to each row |
| Estimator.Fastfood.PhiFast | sklearn/kernel_approximation.py:680-685 | returns `PhiFastRows` of the old rows. The reduced mode overwrites the array with `cos(X + U)`; the 'accuracy' mode and a failed broadcast leave it unchanged |
| Estimator.Fastfood.CosInPlace | sklearn/kernel_approximation.py:684 | after the nested loops, the array holds `cos(X + U)` of its old rows |
| Estimator.Fastfood.CosRowInPlace | sklearn/kernel_approximation.py:684 | row i becomes the cosine of its old entries plus the phases; every other row is unchanged |
| Estimator.Fastfood.Transform | sklearn/kernel_approximation.py:753-764 | fails with NotFitted before `fit`. Otherwise the stacking loop and `phi` give the dense transform as written of the padded rows |
| Estimator.Fastfood.ProjectRow | sklearn/kernel_approximation.py:771-778 | the inner loop of `transform_fast` builds the projection of the padded row, as the chain sees it (ChainInput), by every block in order; rows of width d, of width 1, or of any power-of-two width when d == 1 are accepted |
| Estimator.Fastfood.TransformFast | sklearn/kernel_approximation.py:766-784 | fails with NotFitted before `fit`. Otherwise the row loop, `np.matrix` and `phi_fast` give `FastTransform` of the padded rows |

## Findings

| source | as written | input that shows it | evidently intended | confidence | as-written member | corrected member |
|---|---|---|---|---|---|---|
| sklearn/kernel_approximation.py:617 | `GP = np.take(np.diag(g), p, axis=0)` permutes the rows of diag(g). Row i of GP is g[p[i]] e_{p[i]}, so the dense matrix multiplies y[p[i]] by g[p[i]]. The fast path (lines 627-628) multiplies y[p[i]] by g[i]. So `transform` and `transform_fast` compute different features from the same fitted blocks | d = 2, b = (1, 1), g = (1, 2), p = (1, 0), x = (1, 0): the dense matrix gives (3, 1), the fast chain gives (3, -1) | `np.dot(np.diag(G), P)` as on the commented line 616, with P the permuted identity: diag(g) Pi_P, the operator of the fast path | high; not executed | Structured.CreateGaussianIidMatrix, Structured.AsWrittenCounterexample, Structured.AsWrittenAgreesIff, Features.DenseIsFastWithGatheredG | Structured.IntendedGaussianIidMatrix, Structured.IntendedApplied, Features.IntendedDenseIsFast |

The fast path in the model uses the intended matrix: each block's projection is defined as `IntendedGaussianIidMatrix` applied to the row, and `CreateGaussianIidMatrixFast` and `OneStepColumns` are proved against it. `Estimator.Fastfood.Transform` models the dense code as written, which is `DenseTransform` with `intended == false`. Its corrected form, `intended == true`, is proved equal to `transform_fast` in 'accuracy' mode.

## Left out

- `RBFSampler`, `SkewedChi2Sampler`, `AdditiveChi2Sampler` and `Nystroem` are not part of this model. They are floating-point samplers with no discrete structure.
- The random generator is left out. The draws of `random_gauss_vector`, `binary_vector`, `permutation_matrix`, `scaling_vector` (chi) and `uniform_vector` are arguments of `Fit`, constrained only in shape and range. `S` is constrained only by its length: its chi distribution and its division by the norm of `G` are not modelled. Seed determinism is not claimed: `chi.rvs` does not use the estimator's generator.
- `random_state` and `check_random_state` are not modelled.
- The `fht` library is not part of this model. `approx_fourier_transformation` and `hadamard` are the Sylvester/natural-order Walsh-Hadamard transform `H`, defined by its recursion for power-of-two lengths.
- Features.FastTransform: for a one-column fit (d == 1), padded rows whose width is neither 1 nor a power of two are reported as ShapeMismatch; what `fht1` does on such a length (or `np.take` on an empty result) is not modelled, because the `fht` library is not part of this model.
- Floating-point arithmetic is modelled over exact `real`: `cos`, `sin`, `sqrt` and the reciprocals `1 / (sigma sqrt d)` and `1 / sqrt(w)` are uninterpreted functions. `np.log2` with `floor` on line 574 is modelled as the exact integer next power of two. `1 / np.sqrt(0)` in 'accuracy' mode yields a value (numpy's infinity) rather than an error, and the model keeps it as `recip(sqrt(0))`.
- Estimator.Fastfood.constructor: requires n_components >= 1, because the source does not validate it, and with n_components <= 0 the plan has no blocks and `np.vstack([])` fails.
- `transform_fast` calls `atleast2d_or_csr`, which the module never imports. The model treats it as the identity on a dense two-dimensional input of real rows; sparse input is not modelled.
- The vectorized path is not modelled: `create_gaussian_iid_matrix_fast_vectorized`, `create_approximation_matrix_fast_vectorized`, `fit_vectorized` and `transform_fast_vectorized`. It depends on the missing `atleast2d_or_csr`, and `np.take` without an axis reads from the flattened array.
- `transform_fast_one_step` is not modelled, because it calls `phi_fast` without the estimator and stacks transposed blocks. Its building block `create_gaussian_iid_matrix_fast_one_step` is modelled.
- The redundant samplers `permutation_matrix_old`, `scaling_vector_vectorized` and `scaling_vector_loop` are left out. `permutation_matrix_old` appears only as the permuted identity in the intended dense matrix.
- `BaseEstimator`/`TransformerMixin` plumbing (`get_params`, `fit_transform`) and the unused `y` argument of `fit` are left out.
- Integer widths are unbounded. Python integers do not wrap, and numpy's float conversions in `enforce_dimensionality_constraints` are exact for the sizes involved.

/** Dense vectors and matrices over exact reals: the numpy operations the Fastfood
    pipelines use (elementwise products, `np.diag`, `np.take`, `np.dot`, transposes). */
module LinAlg {

  type Vector = seq<real>

  /** A matrix is a sequence of rows. */
  type Matrix = seq<seq<real>>

  /** Every row of m has c entries. */
  predicate HasWidth(m: Matrix, c: nat)
  {
    forall i :: 0 <= i < |m| ==> |m[i]| == c
  }

  function Zeros(n: nat): Vector
  {
    seq(n, _ => 0.0)
  }

  function Ones(n: nat): Vector
  {
    seq(n, _ => 1.0)
  }

  /** The unit vector e_k of length n. */
  function Unit(n: nat, k: nat): Vector
  {
    seq(n, i => if i == k then 1.0 else 0.0)
  }

  function Add(u: Vector, v: Vector): (r: Vector)
    requires |u| == |v|
    ensures |r| == |u| && forall i {:trigger r[i]} :: 0 <= i < |u| ==> r[i] == u[i] + v[i]
  {
    seq(|u|, i requires 0 <= i < |u| => u[i] + v[i])
  }

  function Sub(u: Vector, v: Vector): (r: Vector)
    requires |u| == |v|
    ensures |r| == |u| && forall i {:trigger r[i]} :: 0 <= i < |u| ==> r[i] == u[i] - v[i]
  {
    seq(|u|, i requires 0 <= i < |u| => u[i] - v[i])
  }

  function Scale(c: real, v: Vector): (r: Vector)
    ensures |r| == |v| && forall i {:trigger r[i]} :: 0 <= i < |v| ==> r[i] == c * v[i]
  {
    seq(|v|, i requires 0 <= i < |v| => c * v[i])
  }

  /** Elementwise product `u * v`. */
  function Mul(u: Vector, v: Vector): (r: Vector)
    requires |u| == |v|
    ensures |r| == |u| && forall i {:trigger r[i]} :: 0 <= i < |u| ==> r[i] == u[i] * v[i]
  {
    seq(|u|, i requires 0 <= i < |u| => u[i] * v[i])
  }

  /** numpy's broadcasting of x against length d: a single entry is repeated d times. */
  function Broadcast(x: Vector, d: nat): (r: Vector)
    requires |x| == d || |x| == 1
    ensures |r| == d
  {
    if |x| == d then x else seq(d, _ => x[0])
  }

  /** The sum of the entries of v. */
  function Sum(v: Vector): real
  {
    if |v| == 0 then 0.0 else v[0] + Sum(v[1..])
  }

  lemma {:induction false} SumConcat(u: Vector, v: Vector)
    ensures Sum(u + v) == Sum(u) + Sum(v)
  {
    if |u| > 0 {
      assert (u + v)[0] == u[0] && (u + v)[1..] == u[1..] + v;
      SumConcat(u[1..], v);
    } else {
      assert u + v == v;
    }
  }

  lemma {:induction false} SumScale(c: real, v: Vector)
    ensures Sum(Scale(c, v)) == c * Sum(v)
  {
    if |v| > 0 {
      var w := Scale(c, v);
      assert w[0] == c * v[0];
      forall k | 0 <= k < |v| - 1 ensures w[1..][k] == Scale(c, v[1..])[k] {
        assert w[1..][k] == w[k + 1];
      }
      assert w[1..] == Scale(c, v[1..]);
      SumScale(c, v[1..]);
      Distributes(c, v[0], Sum(v[1..]));
    }
  }

  lemma Distributes(c: real, x: real, y: real)
    ensures c * x + c * y == c * (x + y)
  {
  }

  lemma SumSplit(v: Vector, h: nat)
    requires h <= |v|
    ensures Sum(v) == Sum(v[..h]) + Sum(v[h..])
  {
    assert v == v[..h] + v[h..];
    SumConcat(v[..h], v[h..]);
  }

  /** A one-entry vector broadcast against x scales x by that entry. */
  lemma {:induction false} MulBroadcastOne(a: Vector, x: Vector)
    requires |a| == 1
    ensures Mul(Broadcast(a, |x|), x) == Scale(a[0], x)
  {
    var y := Mul(Broadcast(a, |x|), x);
    forall i | 0 <= i < |x| ensures y[i] == Scale(a[0], x)[i] {
      assert Broadcast(a, |x|)[i] == a[0];
    }
  }

  /** An integer vector read as reals (numpy's int-to-float promotion). */
  function Reals(b: seq<int>): Vector
  {
    seq(|b|, i requires 0 <= i < |b| => b[i] as real)
  }

  /** Every index in p is below n. */
  predicate IndicesBelow(p: seq<nat>, n: nat)
  {
    forall i :: 0 <= i < |p| ==> p[i] < n
  }

  /** `np.take(v, p)`: r[i] == v[p[i]]. */
  function Take(v: Vector, p: seq<nat>): Vector
    requires IndicesBelow(p, |v|)
  {
    seq(|p|, i requires 0 <= i < |p| => v[p[i]])
  }

  lemma MulOnes(v: Vector)
    ensures Mul(v, Ones(|v|)) == v
  {
    var r := Mul(v, Ones(|v|));
    forall i | 0 <= i < |v| ensures r[i] == v[i] {
      assert r[i] == v[i] * 1.0;
    }
  }

  lemma TakeOnes(n: nat, p: seq<nat>)
    requires |p| == n && IndicesBelow(p, n)
    ensures Take(Ones(n), p) == Ones(n)
  {
  }

  /** Gathering commutes with the elementwise product. */
  lemma TakeMul(u: Vector, v: Vector, p: seq<nat>)
    requires |u| == |v| && IndicesBelow(p, |u|)
    ensures Take(Mul(u, v), p) == Mul(Take(u, p), Take(v, p))
  {
    var l, r := Take(Mul(u, v), p), Mul(Take(u, p), Take(v, p));
    forall i | 0 <= i < |p| ensures l[i] == r[i] {
      assert l[i] == Mul(u, v)[p[i]] == u[p[i]] * v[p[i]];
      assert r[i] == Take(u, p)[i] * Take(v, p)[i];
    }
  }

  /** `np.take(m, p, axis=0)`: row i of the result is row p[i] of m. */
  function TakeRows(m: Matrix, p: seq<nat>): Matrix
    requires IndicesBelow(p, |m|)
  {
    seq(|p|, i requires 0 <= i < |p| => m[p[i]])
  }

  /** `np.diag(v)` */
  function Diag(v: Vector): Matrix
  {
    seq(|v|, i requires 0 <= i < |v| => seq(|v|, j => if i == j then v[i] else 0.0))
  }

  /** `np.identity(n)` */
  function Identity(n: nat): Matrix
  {
    Diag(Ones(n))
  }

  function Dot(u: Vector, v: Vector): real
    requires |u| == |v|
    decreases |u|
  {
    if |u| == 0 then 0.0 else Dot(u[..|u| - 1], v[..|v| - 1]) + u[|u| - 1] * v[|v| - 1]
  }

  /** Column j of m. */
  function Col(m: Matrix, j: nat): Vector
    requires forall i :: 0 <= i < |m| ==> j < |m[i]|
  {
    seq(|m|, i requires 0 <= i < |m| => m[i][j])
  }

  /** The c columns of m; this is also the transpose of m. */
  function Columns(m: Matrix, c: nat): (r: Matrix)
    requires HasWidth(m, c)
    ensures |r| == c && HasWidth(r, |m|)
  {
    seq(c, j requires 0 <= j < c => Col(m, j))
  }

  /** Matrix-vector product `np.dot(m, x)`. */
  function MatVec(m: Matrix, x: Vector): (r: Vector)
    requires HasWidth(m, |x|)
    ensures |r| == |m|
  {
    seq(|m|, i requires 0 <= i < |m| => Dot(m[i], x))
  }

  /** Matrix product `np.dot(a, b)` of a (|a| x |b|) and b (|b| x c). */
  function MatMul(a: Matrix, b: Matrix, c: nat): (r: Matrix)
    requires HasWidth(a, |b|) && HasWidth(b, c)
    ensures |r| == |a| && HasWidth(r, c)
  {
    seq(|a|, i requires 0 <= i < |a| => seq(c, j requires 0 <= j < c => Dot(a[i], Col(b, j))))
  }

  /** `c * m` */
  function ScaleMat(c: real, m: Matrix): (r: Matrix)
    ensures |r| == |m| && forall i :: 0 <= i < |m| ==> |r[i]| == |m[i]|
  {
    seq(|m|, i requires 0 <= i < |m| => Scale(c, m[i]))
  }

  /** f applied to every entry of v. */
  function MapReal(f: real -> real, v: Vector): Vector
  {
    seq(|v|, i requires 0 <= i < |v| => f(v[i]))
  }

  /** f applied to every entry of m. */
  function MapMat(f: real -> real, m: Matrix): (r: Matrix)
    ensures |r| == |m| && forall i :: 0 <= i < |m| ==> |r[i]| == |m[i]|
  {
    seq(|m|, i requires 0 <= i < |m| => MapReal(f, m[i]))
  }

  /** x[0] * cols[0] + ... + x[k-1] * cols[k-1], each column of length h. */
  function LinComb(cols: seq<Vector>, x: Vector, h: nat): (r: Vector)
    requires |cols| == |x| && HasWidth(cols, h)
    ensures |r| == h
    decreases |x|
  {
    if |x| == 0 then Zeros(h)
    else
      var k := |x| - 1;
      Add(LinComb(cols[..k], x[..k], h), Scale(x[k], cols[k]))
  }

  /** The rows of m cut to their first k entries. */
  function Truncate(m: Matrix, k: nat): (r: Matrix)
    requires forall i :: 0 <= i < |m| ==> k <= |m[i]|
    ensures |r| == |m| && HasWidth(r, k)
  {
    seq(|m|, i requires 0 <= i < |m| => m[i][..k])
  }

  // ---------------------------------------------------------------------------------------
  // Slices of elementwise operations

  lemma SliceAdd(u: Vector, v: Vector, h: nat)
    requires |u| == |v| && h <= |u|
    ensures Add(u, v)[..h] == Add(u[..h], v[..h]) && Add(u, v)[h..] == Add(u[h..], v[h..])
  {
    var w := Add(u, v);
    assert forall i :: 0 <= i < h ==> w[..h][i] == u[..h][i] + v[..h][i];
    assert forall i :: 0 <= i < |u| - h ==> w[h..][i] == u[h..][i] + v[h..][i];
  }

  lemma SliceSub(u: Vector, v: Vector, h: nat)
    requires |u| == |v| && h <= |u|
    ensures Sub(u, v)[..h] == Sub(u[..h], v[..h]) && Sub(u, v)[h..] == Sub(u[h..], v[h..])
  {
    var w := Sub(u, v);
    assert forall i :: 0 <= i < h ==> w[..h][i] == u[..h][i] - v[..h][i];
    assert forall i :: 0 <= i < |u| - h ==> w[h..][i] == u[h..][i] - v[h..][i];
  }

  lemma SliceScale(c: real, v: Vector, h: nat)
    requires h <= |v|
    ensures Scale(c, v)[..h] == Scale(c, v[..h]) && Scale(c, v)[h..] == Scale(c, v[h..])
  {
    var w := Scale(c, v);
    assert forall i :: 0 <= i < h ==> w[..h][i] == c * v[..h][i];
    assert forall i :: 0 <= i < |v| - h ==> w[h..][i] == c * v[h..][i];
  }

  lemma ScaleConcat(c: real, u: Vector, v: Vector)
    ensures Scale(c, u + v) == Scale(c, u) + Scale(c, v)
  {
    var l, r := Scale(c, u + v), Scale(c, u) + Scale(c, v);
    forall i | 0 <= i < |u| + |v| ensures l[i] == r[i] {
      if i >= |u| {
        assert (u + v)[i] == v[i - |u|];
      }
    }
  }

  /** Two vectors that agree on both halves are equal. */
  lemma EqualByHalves(x: Vector, y: Vector, h: nat)
    requires |x| == |y| && h <= |x| && x[..h] == y[..h] && x[h..] == y[h..]
    ensures x == y
  {
    assert x == x[..h] + x[h..];
    assert y == y[..h] + y[h..];
  }

  /** Regrouping sums and differences of four vectors (the butterfly's bookkeeping). */
  lemma Regroup(a: Vector, b: Vector, c: Vector, e: Vector)
    requires |a| == |b| == |c| == |e|
    ensures Add(Add(a, c), Add(b, e)) == Add(Add(a, b), Add(c, e))
    ensures Sub(Add(a, c), Add(b, e)) == Add(Sub(a, b), Sub(c, e))
    ensures Add(Sub(a, c), Sub(b, e)) == Sub(Add(a, b), Add(c, e))
    ensures Sub(Sub(a, c), Sub(b, e)) == Sub(Sub(a, b), Sub(c, e))
  {
  }

  lemma ScaleDistributes(k: real, a: Vector, b: Vector)
    requires |a| == |b|
    ensures Add(Scale(k, a), Scale(k, b)) == Scale(k, Add(a, b))
    ensures Sub(Scale(k, a), Scale(k, b)) == Scale(k, Sub(a, b))
  {
    forall i | 0 <= i < |a| ensures Add(Scale(k, a), Scale(k, b))[i] == Scale(k, Add(a, b))[i] {
      assert k * a[i] + k * b[i] == k * (a[i] + b[i]);
    }
    forall i | 0 <= i < |a| ensures Sub(Scale(k, a), Scale(k, b))[i] == Scale(k, Sub(a, b))[i] {
      assert k * a[i] - k * b[i] == k * (a[i] - b[i]);
    }
  }

  /** (k x + k y) + (k x - k y) == 2k x and (k x + k y) - (k x - k y) == 2k y */
  lemma ButterflyTwice(k: real, c: real, x: Vector, y: Vector)
    requires |x| == |y| && c == 2.0 * k
    ensures Add(Add(Scale(k, x), Scale(k, y)), Sub(Scale(k, x), Scale(k, y))) == Scale(c, x)
    ensures Sub(Add(Scale(k, x), Scale(k, y)), Sub(Scale(k, x), Scale(k, y))) == Scale(c, y)
  {
    var sum, diff := Add(Scale(k, x), Scale(k, y)), Sub(Scale(k, x), Scale(k, y));
    forall i | 0 <= i < |x|
      ensures Add(sum, diff)[i] == Scale(c, x)[i] && Sub(sum, diff)[i] == Scale(c, y)[i]
    {
      var p, q := k * x[i], k * y[i];
      assert p + p == c * x[i] && q + q == c * y[i];
    }
  }

  lemma ScaleCancel(k: real, u: Vector, v: Vector)
    requires |u| == |v| && k != 0.0 && Scale(k, u) == Scale(k, v)
    ensures u == v
  {
    forall i | 0 <= i < |u| ensures u[i] == v[i] {
      assert Scale(k, u)[i] == Scale(k, v)[i];
    }
  }

  // ---------------------------------------------------------------------------------------
  // Dot products

  lemma {:induction false} DotAdd(a: Vector, u: Vector, v: Vector)
    requires |a| == |u| == |v|
    ensures Dot(a, Add(u, v)) == Dot(a, u) + Dot(a, v)
    decreases |a|
  {
    if |a| > 0 {
      var k := |a| - 1;
      assert Add(u, v)[..k] == Add(u[..k], v[..k]);
      DotAdd(a[..k], u[..k], v[..k]);
    }
  }

  /** Scaling by a broadcast one-entry vector scales the sum by that entry. */
  lemma {:induction false} SumBroadcastOne(a: Vector, x: Vector)
    requires |a| == 1
    ensures Sum(Mul(Broadcast(a, |x|), x)) == a[0] * Sum(x)
  {
    MulBroadcastOne(a, x);
    SumScale(a[0], x);
  }

  /** Multiplying equal reals by the same factor (the solver's nonlinear arithmetic does not
      always rewrite under a product). */
  lemma MulEqual(a: real, x: real, y: real)
    requires x == y
    ensures a * x == a * y && x * a == y * a
  {
  }

  lemma FactorOut(c: real, x: real, y: real, z: real)
    ensures c * x + y * (c * z) == c * (x + y * z)
  {
  }

  /** The last step of the recursion defining Dot. */
  lemma DotLast(a: Vector, v: Vector, k: nat)
    requires |a| == |v| == k + 1
    ensures Dot(a, v) == Dot(a[..k], v[..k]) + a[k] * v[k]
  {
  }

  lemma {:induction false} DotScale(a: Vector, c: real, v: Vector)
    requires |a| == |v|
    ensures Dot(a, Scale(c, v)) == c * Dot(a, v)
    decreases |a|
  {
    if |a| > 0 {
      var k := |a| - 1;
      var w := Scale(c, v);
      SliceScale(c, v, k);
      DotScale(a[..k], c, v[..k]);
      DotLast(a, w, k);
      DotLast(a, v, k);
      FactorOut(c, Dot(a[..k], v[..k]), a[k], v[k]);
    }
  }


  lemma {:induction false} DotCommutes(a: Vector, v: Vector)
    requires |a| == |v|
    ensures Dot(a, v) == Dot(v, a)
    decreases |a|
  {
    if |a| > 0 {
      DotCommutes(a[..|a| - 1], v[..|v| - 1]);
    }
  }

  lemma {:induction false} DotZeros(a: Vector)
    ensures Dot(a, Zeros(|a|)) == 0.0
    decreases |a|
  {
    if |a| > 0 {
      var k := |a| - 1;
      assert Zeros(|a|)[..k] == Zeros(k);
      DotZeros(a[..k]);
    }
  }

  /** A row that is zero except possibly at index i picks out row[i] * y[i]. */
  lemma {:induction false} DotSupport(row: Vector, y: Vector, i: nat)
    requires |row| == |y|
    requires forall k :: 0 <= k < |row| && k != i ==> row[k] == 0.0
    ensures Dot(row, y) == if i < |row| then row[i] * y[i] else 0.0
    decreases |row|
  {
    if |row| > 0 {
      var k := |row| - 1;
      DotSupport(row[..k], y[..k], i);
      assert i < k ==> row[..k][i] == row[i] && y[..k][i] == y[i];
      assert k != i ==> row[k] == 0.0;
    }
  }

  // ---------------------------------------------------------------------------------------
  // Matrix-vector products

  /** A matrix-vector product is the combination of the matrix's columns weighted by x. */
  lemma {:induction false} MatVecAsLinComb(m: Matrix, x: Vector)
    requires HasWidth(m, |x|)
    ensures MatVec(m, x) == LinComb(Columns(m, |x|), x, |m|)
    decreases |x|
  {
    if |x| > 0 {
      var k := |x| - 1;
      var t := Truncate(m, k);
      MatVecAsLinComb(t, x[..k]);
      forall j | 0 <= j < k ensures Col(t, j) == Col(m, j) {
        forall i | 0 <= i < |m| ensures t[i][j] == m[i][j] {
          assert t[i] == m[i][..k];
        }
      }
      assert Columns(t, k) == Columns(m, |x|)[..k];
      forall i | 0 <= i < |m|
        ensures MatVec(m, x)[i] == LinComb(Columns(m, |x|), x, |m|)[i]
      {
        assert m[i][..k] == t[i];
      }
    }
  }

  lemma MatVecAdd(a: Matrix, u: Vector, v: Vector)
    requires |u| == |v| && HasWidth(a, |u|)
    ensures MatVec(a, Add(u, v)) == Add(MatVec(a, u), MatVec(a, v))
  {
    forall i | 0 <= i < |a| ensures Dot(a[i], Add(u, v)) == Dot(a[i], u) + Dot(a[i], v) {
      DotAdd(a[i], u, v);
    }
  }

  lemma MatVecScale(a: Matrix, c: real, v: Vector)
    requires HasWidth(a, |v|)
    ensures MatVec(a, Scale(c, v)) == Scale(c, MatVec(a, v))
  {
    forall i | 0 <= i < |a| ensures MatVec(a, Scale(c, v))[i] == Scale(c, MatVec(a, v))[i] {
      DotScale(a[i], c, v);
    }
  }

  lemma MatVecZeros(a: Matrix, h: nat)
    requires HasWidth(a, h)
    ensures MatVec(a, Zeros(h)) == Zeros(|a|)
  {
    forall i | 0 <= i < |a| ensures Dot(a[i], Zeros(h)) == 0.0 {
      DotZeros(a[i]);
    }
  }

  /** Stacking rows and applying is applying and concatenating (`np.vstack`). */
  lemma MatVecConcat(a: Matrix, b: Matrix, x: Vector)
    requires HasWidth(a, |x|) && HasWidth(b, |x|)
    ensures MatVec(a + b, x) == MatVec(a, x) + MatVec(b, x)
  {
    var l, r := MatVec(a + b, x), MatVec(a, x) + MatVec(b, x);
    forall i | 0 <= i < |a| + |b| ensures l[i] == r[i] {
      if i >= |a| {
        assert (a + b)[i] == b[i - |a|];
      }
    }
  }

  lemma HasWidthConcat(a: Matrix, b: Matrix, c: nat)
    requires HasWidth(a, c) && HasWidth(b, c)
    ensures HasWidth(a + b, c)
  {
    forall i | 0 <= i < |a| + |b| ensures |(a + b)[i]| == c {
      if i >= |a| {
        assert (a + b)[i] == b[i - |a|];
      }
    }
  }

  lemma ColConcat(a: Matrix, b: Matrix, c: nat, r: nat)
    requires HasWidth(a, c) && HasWidth(b, c) && r < c
    ensures HasWidth(a + b, c) && Col(a + b, r) == Col(a, r) + Col(b, r)
  {
    HasWidthConcat(a, b, c);
    var l, rr := Col(a + b, r), Col(a, r) + Col(b, r);
    forall i | 0 <= i < |a| + |b| ensures l[i] == rr[i] {
      if i >= |a| {
        assert (a + b)[i] == b[i - |a|];
      }
    }
  }

  lemma ColMapMat(f: real -> real, m: Matrix, c: nat, r: nat)
    requires HasWidth(m, c) && r < c
    ensures HasWidth(MapMat(f, m), c) && Col(MapMat(f, m), r) == MapReal(f, Col(m, r))
  {
  }

  lemma ColScaleMat(s: real, m: Matrix, c: nat, r: nat)
    requires HasWidth(m, c) && r < c
    ensures HasWidth(ScaleMat(s, m), c) && Col(ScaleMat(s, m), r) == Scale(s, Col(m, r))
  {
    var l, rr := Col(ScaleMat(s, m), r), Scale(s, Col(m, r));
    forall i | 0 <= i < |m| ensures l[i] == rr[i] {
      assert ScaleMat(s, m)[i] == Scale(s, m[i]);
    }
  }

  /** Row r of the transpose of x is x[r]. */
  lemma ColColumns(x: Matrix, c: nat, r: nat)
    requires HasWidth(x, c) && r < |x|
    ensures Col(Columns(x, c), r) == x[r]
  {
  }

  /** `np.dot(c * m, x) == c * np.dot(m, x)` */
  lemma ScaleMatApplied(c: real, m: Matrix, x: Vector)
    requires HasWidth(m, |x|)
    ensures MatVec(ScaleMat(c, m), x) == Scale(c, MatVec(m, x))
  {
    forall i | 0 <= i < |m| ensures MatVec(ScaleMat(c, m), x)[i] == Scale(c, MatVec(m, x))[i] {
      DotCommutes(Scale(c, m[i]), x);
      DotScale(x, c, m[i]);
      DotCommutes(m[i], x);
    }
  }

  /** The products of a with each of the columns. */
  function MatVecEach(a: Matrix, cols: seq<Vector>, h: nat): (r: seq<Vector>)
    requires HasWidth(a, h) && HasWidth(cols, h)
    ensures |r| == |cols| && HasWidth(r, |a|)
  {
    seq(|cols|, j requires 0 <= j < |cols| => MatVec(a, cols[j]))
  }

  /** Multiplying by a commutes with taking linear combinations. */
  lemma {:induction false} MatVecLinComb(a: Matrix, cols: seq<Vector>, x: Vector, h: nat)
    requires |cols| == |x| && HasWidth(cols, h) && HasWidth(a, h)
    ensures MatVec(a, LinComb(cols, x, h)) == LinComb(MatVecEach(a, cols, h), x, |a|)
    decreases |x|
  {
    if |x| == 0 {
      MatVecZeros(a, h);
    } else {
      var k := |x| - 1;
      MatVecLinComb(a, cols[..k], x[..k], h);
      assert MatVecEach(a, cols, h)[..k] == MatVecEach(a, cols[..k], h);
      MatVecAdd(a, LinComb(cols[..k], x[..k], h), Scale(x[k], cols[k]));
      MatVecScale(a, x[k], cols[k]);
    }
  }

  /** `np.dot(np.dot(a, b), x) == np.dot(a, np.dot(b, x))` */
  lemma MatMulApplied(a: Matrix, b: Matrix, x: Vector)
    requires HasWidth(a, |b|) && HasWidth(b, |x|)
    ensures MatVec(MatMul(a, b, |x|), x) == MatVec(a, MatVec(b, x))
  {
    var c := |x|;
    var ab := MatMul(a, b, c);
    MatVecAsLinComb(ab, x);
    MatVecAsLinComb(b, x);
    forall j | 0 <= j < c ensures Col(ab, j) == MatVec(a, Col(b, j)) {
      ColMatMul(a, b, c, j);
    }
    assert Columns(ab, c) == MatVecEach(a, Columns(b, c), |b|);
    MatVecLinComb(a, Columns(b, c), x, |b|);
  }

  /** `np.dot(np.diag(v), y) == v * y` */
  lemma DiagApplied(v: Vector, y: Vector)
    requires |v| == |y|
    ensures MatVec(Diag(v), y) == Mul(v, y)
  {
    forall i | 0 <= i < |v| ensures Dot(Diag(v)[i], y) == v[i] * y[i] {
      var row := Diag(v)[i];
      assert forall k :: 0 <= k < |row| && k != i ==> row[k] == 0.0;
      DotSupport(row, y, i);
    }
  }

  lemma IdentityApplied(y: Vector)
    ensures MatVec(Identity(|y|), y) == y
  {
    DiagApplied(Ones(|y|), y);
  }

  /** Taking rows before multiplying is taking entries after it. */
  lemma TakeRowsApplied(m: Matrix, p: seq<nat>, x: Vector)
    requires IndicesBelow(p, |m|) && HasWidth(m, |x|)
    ensures MatVec(TakeRows(m, p), x) == Take(MatVec(m, x), p)
  {
  }

  /** Column j of the gathered rows is the gather of column j. */
  lemma ColTakeRows(m: Matrix, p: seq<nat>, j: nat)
    requires IndicesBelow(p, |m|) && forall i :: 0 <= i < |m| ==> j < |m[i]|
    ensures Col(TakeRows(m, p), j) == Take(Col(m, j), p)
  {
  }

  /** Column j of a product is a times column j of b. */
  lemma ColMatMul(a: Matrix, b: Matrix, c: nat, j: nat)
    requires HasWidth(a, |b|) && HasWidth(b, c) && j < c
    ensures Col(MatMul(a, b, c), j) == MatVec(a, Col(b, j))
  {
  }
}

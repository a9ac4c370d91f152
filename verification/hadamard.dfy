/** The unnormalised Walsh-Hadamard transform H of order d (a power of two), given by
    Sylvester's recursion H_1 = [1], H_2m = [[H_m, H_m], [H_m, -H_m]] and computed by the
    usual butterfly. `approx_fourier_transformation` applies it to one vector,
    `hadamard` to every column of a matrix. */
module Hadamard {
  import opened Planner
  import opened LinAlg

  /** H v for a vector whose length is a power of two. */
  function Wht(v: Vector): (r: Vector)
    requires IsPow2(|v|)
    ensures |r| == |v|
    decreases |v|
  {
    if |v| == 1 then v
    else
      var h := |v| / 2;
      var lo := Wht(v[..h]);
      var hi := Wht(v[h..]);
      Add(lo, hi) + Sub(lo, hi)
  }

  /** Every column of the h-row matrix m (of width c) transformed by H, i.e. H m. */
  function WhtCols(m: Matrix, c: nat): (r: Matrix)
    requires IsPow2(|m|) && HasWidth(m, c)
    ensures |r| == |m| && HasWidth(r, c)
  {
    seq(|m|, i requires 0 <= i < |m| => seq(c, j requires 0 <= j < c => Wht(Col(m, j))[i]))
  }

  /** Column j of H m is H applied to column j of m. */
  lemma ColWhtCols(m: Matrix, c: nat, j: nat)
    requires IsPow2(|m|) && HasWidth(m, c) && j < c
    ensures Col(WhtCols(m, c), j) == Wht(Col(m, j))
  {
  }

  /** H applied to each of the columns. */
  function WhtEach(cols: seq<Vector>, h: nat): (r: seq<Vector>)
    requires IsPow2(h) && HasWidth(cols, h)
    ensures |r| == |cols| && HasWidth(r, h)
  {
    seq(|cols|, j requires 0 <= j < |cols| => Wht(cols[j]))
  }

  /** One butterfly step: the two halves of H v from the transforms of the two halves of v. */
  lemma WhtHalves(v: Vector)
    requires IsPow2(|v|) && |v| > 1
    ensures IsPow2(|v| / 2) && |v| == 2 * (|v| / 2)
    ensures Wht(v)[..|v| / 2] == Add(Wht(v[..|v| / 2]), Wht(v[|v| / 2..]))
    ensures Wht(v)[|v| / 2..] == Sub(Wht(v[..|v| / 2]), Wht(v[|v| / 2..]))
  {
  }

  /** The first row of H is all ones: the first entry of H v is the sum of v. */
  lemma {:induction false} WhtFirst(v: Vector)
    requires IsPow2(|v|)
    ensures Wht(v)[0] == Sum(v)
    decreases |v|
  {
    if |v| > 1 {
      var h := |v| / 2;
      var lo, hi := v[..h], v[h..];
      WhtHalves(v);
      var front := Wht(v)[..h];
      assert front == Add(Wht(lo), Wht(hi));
      assert Wht(v)[0] == front[0];
      WhtFirst(lo);
      WhtFirst(hi);
      SumSplit(v, h);
    } else {
      assert v[1..] == [];
    }
  }

  /** H applied to x scaled by a broadcast one-entry a starts with a[0] times the sum of x. */
  lemma {:induction false} WhtBroadcastHead(a: Vector, x: Vector)
    requires |a| == 1 && IsPow2(|x|)
    ensures Wht(Mul(Broadcast(a, |x|), x))[0] == a[0] * Sum(x)
  {
    var y := Mul(Broadcast(a, |x|), x);
    SumBroadcastOne(a, x);
    WhtFirst(y);
  }

  lemma {:induction false} WhtAdd(u: Vector, v: Vector)
    requires |u| == |v| && IsPow2(|u|)
    ensures Wht(Add(u, v)) == Add(Wht(u), Wht(v))
    decreases |u|
  {
    if |u| > 1 {
      var h := |u| / 2;
      var w := Add(u, v);
      SliceAdd(u, v, h);
      WhtHalves(u);
      WhtHalves(v);
      WhtHalves(w);
      WhtAdd(u[..h], v[..h]);
      WhtAdd(u[h..], v[h..]);
      Regroup(Wht(u[..h]), Wht(u[h..]), Wht(v[..h]), Wht(v[h..]));
      SliceAdd(Wht(u), Wht(v), h);
      EqualByHalves(Wht(w), Add(Wht(u), Wht(v)), h);
    }
  }

  lemma {:induction false} WhtSub(u: Vector, v: Vector)
    requires |u| == |v| && IsPow2(|u|)
    ensures Wht(Sub(u, v)) == Sub(Wht(u), Wht(v))
    decreases |u|
  {
    if |u| > 1 {
      var h := |u| / 2;
      var w := Sub(u, v);
      SliceSub(u, v, h);
      WhtHalves(u);
      WhtHalves(v);
      WhtHalves(w);
      WhtSub(u[..h], v[..h]);
      WhtSub(u[h..], v[h..]);
      Regroup(Wht(u[..h]), Wht(u[h..]), Wht(v[..h]), Wht(v[h..]));
      SliceSub(Wht(u), Wht(v), h);
      EqualByHalves(Wht(w), Sub(Wht(u), Wht(v)), h);
    }
  }

  lemma {:induction false} WhtScale(c: real, v: Vector)
    requires IsPow2(|v|)
    ensures Wht(Scale(c, v)) == Scale(c, Wht(v))
    decreases |v|
  {
    if |v| > 1 {
      var h := |v| / 2;
      var w := Scale(c, v);
      SliceScale(c, v, h);
      WhtHalves(v);
      WhtHalves(w);
      WhtScale(c, v[..h]);
      WhtScale(c, v[h..]);
      ScaleDistributes(c, Wht(v[..h]), Wht(v[h..]));
      SliceScale(c, Wht(v), h);
      EqualByHalves(Wht(w), Scale(c, Wht(v)), h);
    }
  }

  lemma {:induction false} WhtZeros(n: nat)
    requires IsPow2(n)
    ensures Wht(Zeros(n)) == Zeros(n)
    decreases n
  {
    if n > 1 {
      var h := n / 2;
      assert Zeros(n)[..h] == Zeros(h);
      assert Zeros(n)[h..] == Zeros(h);
      WhtZeros(h);
    }
  }

  /** H e_0 is the all-ones vector (the first column of H). */
  lemma {:induction false} WhtUnit(n: nat)
    requires IsPow2(n)
    ensures Wht(Unit(n, 0)) == Ones(n)
    decreases n
  {
    if n > 1 {
      var h := n / 2;
      assert Unit(n, 0)[..h] == Unit(h, 0);
      assert Unit(n, 0)[h..] == Zeros(h);
      WhtUnit(h);
      WhtZeros(h);
    }
  }

  /** The butterfly step of `WhtInvolution`: with H lo == k v1 and H hi == k v2, the two
      halves of H (lo + hi | lo - hi) are c v1 and c v2, where c == 2k. */
  lemma InvolutionHalves(lo: Vector, hi: Vector, v1: Vector, v2: Vector, k: real, c: real)
    requires |lo| == |hi| == |v1| == |v2| && IsPow2(|lo|) && c == 2.0 * k
    requires Wht(lo) == Scale(k, v1) && Wht(hi) == Scale(k, v2)
    ensures Add(Wht(Add(lo, hi)), Wht(Sub(lo, hi))) == Scale(c, v1)
    ensures Sub(Wht(Add(lo, hi)), Wht(Sub(lo, hi))) == Scale(c, v2)
  {
    WhtAdd(lo, hi);
    WhtSub(lo, hi);
    ButterflyTwice(k, c, v1, v2);
  }

  /** The butterfly on a vector given as its two halves. */
  lemma WhtConcat(v1: Vector, v2: Vector)
    requires |v1| == |v2| && IsPow2(|v1|)
    ensures IsPow2(|v1 + v2|)
    ensures Wht(v1 + v2) == Add(Wht(v1), Wht(v2)) + Sub(Wht(v1), Wht(v2))
  {
    var v, h := v1 + v2, |v1|;
    assert |v| % 2 == 0 && |v| / 2 == h;
    assert v[..h] == v1 && v[h..] == v2;
  }

  /** H H (v1 | v2) == c (v1 | v2) with c == 2k, given H H v1 == k v1 and H H v2 == k v2. */
  lemma InvolutionStep(v1: Vector, v2: Vector, k: real, c: real)
    requires |v1| == |v2| && IsPow2(|v1|) && c == 2.0 * k
    requires Wht(Wht(v1)) == Scale(k, v1) && Wht(Wht(v2)) == Scale(k, v2)
    ensures IsPow2(|v1 + v2|)
    ensures Wht(Wht(v1 + v2)) == Scale(c, v1 + v2)
  {
    var lo, hi := Wht(v1), Wht(v2);
    InvolutionHalves(lo, hi, v1, v2, k, c);
    WhtConcat(Add(lo, hi), Sub(lo, hi));
    WhtConcat(v1, v2);
    ScaleConcat(c, v1, v2);
  }

  /** H H = d I: the transform is its own inverse up to the factor d. */
  lemma {:induction false} WhtInvolution(v: Vector)
    requires IsPow2(|v|)
    ensures Wht(Wht(v)) == Scale(|v| as real, v)
    decreases |v|
  {
    if |v| > 1 {
      var h := |v| / 2;
      WhtHalves(v);
      var v1, v2 := v[..h], v[h..];
      assert v == v1 + v2;
      WhtInvolution(v1);
      WhtInvolution(v2);
      InvolutionStep(v1, v2, h as real, |v| as real);
    } else {
      assert Scale(1.0, v)[0] == v[0];
    }
  }

  /** H is injective. */
  lemma WhtInjective(u: Vector, v: Vector)
    requires |u| == |v| && IsPow2(|u|)
    requires Wht(u) == Wht(v)
    ensures u == v
  {
    WhtInvolution(u);
    WhtInvolution(v);
    ScaleCancel(|u| as real, u, v);
  }

  /** H commutes with linear combinations. */
  lemma {:induction false} WhtLinComb(cols: seq<Vector>, x: Vector, h: nat)
    requires IsPow2(h) && |cols| == |x| && HasWidth(cols, h)
    ensures Wht(LinComb(cols, x, h)) == LinComb(WhtEach(cols, h), x, h)
    decreases |x|
  {
    if |x| == 0 {
      WhtZeros(h);
    } else {
      var k := |x| - 1;
      WhtLinComb(cols[..k], x[..k], h);
      assert WhtEach(cols, h)[..k] == WhtEach(cols[..k], h);
      WhtAdd(LinComb(cols[..k], x[..k], h), Scale(x[k], cols[k]));
      WhtScale(x[k], cols[k]);
    }
  }

  /** `hadamard(M)` applied to x is H applied to M x: `np.dot(hadamard(M), x) == H (M x)`. */
  lemma WhtColsApplied(m: Matrix, x: Vector)
    requires IsPow2(|m|) && HasWidth(m, |x|)
    ensures MatVec(WhtCols(m, |x|), x) == Wht(MatVec(m, x))
  {
    var c := |x|;
    var hm := WhtCols(m, c);
    MatVecAsLinComb(hm, x);
    MatVecAsLinComb(m, x);
    forall j | 0 <= j < c ensures Columns(hm, c)[j] == WhtEach(Columns(m, c), |m|)[j] {
      ColWhtCols(m, c, j);
    }
    assert Columns(hm, c) == WhtEach(Columns(m, c), |m|);
    WhtLinComb(Columns(m, c), x, |m|);
  }
}

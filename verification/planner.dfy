/** Dimension planning: the power-of-two working width and the number of stacked blocks. */
module Planner {
  import opened Results

  /** 2^k */
  function Pow2(k: nat): (r: nat)
    ensures r >= 1
  {
    if k == 0 then 1 else 2 * Pow2(k - 1)
  }

  /** n is a positive power of two (1, 2, 4, ...). */
  predicate IsPow2(n: nat)
    decreases n
  {
    if n <= 1 then n == 1 else n % 2 == 0 && IsPow2(n / 2)
  }

  /** floor(log2(n)) for n >= 1 */
  function FloorLog2(n: nat): nat
    requires n >= 1
    decreases n
  {
    if n == 1 then 0 else 1 + FloorLog2(n / 2)
  }

  /** The bitwise `a & b` of two non-negative (arbitrary precision) integers. */
  function BitAnd(a: nat, b: nat): nat
    decreases a
  {
    if a == 0 || b == 0 then 0 else 2 * BitAnd(a / 2, b / 2) + (a % 2) * (b % 2)
  }

  /** `is_number_power_of_two`: `n != 0 and n & (n - 1) == 0`, which holds exactly
      for the positive powers of two. */
  function IsNumberPowerOfTwo(n: nat): (r: bool)
    ensures r <==> IsPow2(n)
  {
    BitTestDecidesPow2(n);
    n != 0 && BitAnd(n, n - 1) == 0
  }

  lemma {:induction false} Pow2IsPow2(k: nat)
    ensures IsPow2(Pow2(k))
  {
    if k > 0 {
      Pow2IsPow2(k - 1);
      assert Pow2(k) / 2 == Pow2(k - 1);
    }
  }

  lemma {:induction false} Pow2Monotone(j: nat, k: nat)
    requires j <= k
    ensures Pow2(j) <= Pow2(k)
  {
    if j < k {
      Pow2Monotone(j, k - 1);
    }
  }

  lemma {:induction false} FloorLog2Bounds(n: nat)
    requires n >= 1
    ensures Pow2(FloorLog2(n)) <= n < Pow2(FloorLog2(n) + 1)
    decreases n
  {
    if n > 1 {
      FloorLog2Bounds(n / 2);
    }
  }

  /** A power of two is 2 raised to its floor-log. */
  lemma {:induction false} IsPow2IsPow2OfLog(n: nat)
    requires IsPow2(n)
    ensures n >= 1 && Pow2(FloorLog2(n)) == n
    decreases n
  {
    if n > 1 {
      IsPow2IsPow2OfLog(n / 2);
    }
  }

  /** IsPow2 says exactly "n == 2^k for some k". */
  lemma IsPow2Exactly(n: nat)
    ensures IsPow2(n) <==> exists k: nat :: Pow2(k) == n
  {
    if IsPow2(n) {
      IsPow2IsPow2OfLog(n);
    }
    if exists k: nat :: Pow2(k) == n {
      var k: nat :| Pow2(k) == n;
      Pow2IsPow2(k);
    }
  }

  lemma {:induction false} BitAndSelf(a: nat)
    ensures BitAnd(a, a) == a
    decreases a
  {
    if a > 0 {
      BitAndSelf(a / 2);
    }
  }

  /** The bit trick `n != 0 and n & (n - 1) == 0` decides exactly the positive powers of two. */
  lemma {:induction false} BitTestDecidesPow2(n: nat)
    ensures (n != 0 && BitAnd(n, n - 1) == 0) <==> IsPow2(n)
    decreases n
  {
    if n >= 2 {
      if n % 2 == 0 {
        // n & (n-1) == 2 * ((n/2) & (n/2 - 1)), since n is even and n - 1 is odd
        assert (n - 1) / 2 == n / 2 - 1;
        assert BitAnd(n, n - 1) == 2 * BitAnd(n / 2, n / 2 - 1);
        BitTestDecidesPow2(n / 2);
      } else {
        // n odd and >= 3: n & (n-1) keeps the (non-zero) bits above the lowest one
        assert (n - 1) / 2 == n / 2;
        BitAndSelf(n / 2);
        assert BitAnd(n, n - 1) == 2 * (n / 2);
      }
    }
  }

  /** The planned dimensions: working width d, realized width n, number of stacked blocks. */
  datatype Plan = Plan(d: nat, n: int, timesToStackV: int)

  /** `enforce_dimensionality_constraints(d, n)`. For d == 0 the width 2^(floor(log2 0) + 1)
      is the float 0.0; numpy's `divmod(n, 0.0)` then yields a non-finite quotient (infinite,
      or NaN when n == 0), and converting it with `int` raises. */
  function EnforceDimensionalityConstraints(d: nat, n: int): (r: Result<Plan>)
    ensures r.Failure? <==> d == 0
    ensures r.Failure? ==> r.error == NonFiniteToInt
    ensures r.Success? ==>
      && IsPow2(r.value.d)
      && r.value.d >= d
      && (IsPow2(d) ==> r.value.d == d)
      && (!IsPow2(d) ==> r.value.d > d)
      && r.value.n == r.value.timesToStackV * r.value.d
      && n <= r.value.n < n + r.value.d
  {
    if d == 0 then Failure(NonFiniteToInt)
    else
      var w: nat := if IsNumberPowerOfTwo(d) then d else Pow2(FloorLog2(d) + 1);
      FloorLog2Bounds(d);
      Pow2IsPow2(FloorLog2(d) + 1);
      var divisor, remainder := n / w, n % w;
      RoundUpToMultiple(n, w);
      if remainder != 0 then
        Success(Plan(w, (divisor + 1) * w, divisor + 1))
      else
        Success(Plan(w, n, divisor))
  }

  /** Rounding n up to the next multiple of w, as `divmod` and its correction do. */
  lemma RoundUpToMultiple(n: int, w: nat)
    requires w >= 1
    ensures n % w != 0 ==> n < (n / w + 1) * w < n + w
    ensures n % w == 0 ==> n == (n / w) * w
  {
    var q, m := n / w, n % w;
    assert n == q * w + m;
    assert (q + 1) * w == q * w + w;
  }

  /** The working width is the smallest power of two that is at least d. */
  lemma EnforceSmallestPowerOfTwo(d: nat, n: int, k: nat)
    requires d >= 1 && Pow2(k) >= d
    ensures EnforceDimensionalityConstraints(d, n).value.d <= Pow2(k)
  {
    var w := EnforceDimensionalityConstraints(d, n).value.d;
    if !IsPow2(d) {
      FloorLog2Bounds(d);
      if k <= FloorLog2(d) {
        Pow2Monotone(k, FloorLog2(d));
        if Pow2(k) == d {
          Pow2IsPow2(k);
        }
        assert false;
      }
      Pow2Monotone(FloorLog2(d) + 1, k);
    }
  }

  /** When d divides n the requested width is kept and n / d blocks are stacked. */
  lemma EnforceExactWhenDivisible(d: nat, n: int)
    requires d >= 1 && IsPow2(d) && n % d == 0
    ensures EnforceDimensionalityConstraints(d, n) == Success(Plan(d, n, n / d))
  {
  }

  /** The two worked scenarios: 10 features and 100 components plan d = 16, 7 blocks, n = 112;
      16 features and 16 components plan d = 16, one block, n = 16. */
  lemma PlanScenarios()
    ensures EnforceDimensionalityConstraints(10, 100) == Success(Plan(16, 112, 7))
    ensures EnforceDimensionalityConstraints(16, 16) == Success(Plan(16, 16, 1))
  {
    assert !IsPow2(10) by { assert !IsPow2(5); }
    assert FloorLog2(10) == 3;
    assert Pow2(4) == 16;
    assert IsPow2(16);
  }
}

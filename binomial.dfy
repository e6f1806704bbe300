/** Exact binomial coefficients, standing in for the floating-point
    `statrs::function::factorial::binomial` that src/shapley.rs calls. */
module Binomials {

  /** `C(n, k)` by Pascal's rule; zero when `k > n`, as the library returns. */
  function Binomial(n: nat, k: nat): (r: nat)
    ensures k <= n ==> r >= 1
    ensures k > n ==> r == 0
  {
    if k == 0 then 1
    else if n == 0 then 0
    else Binomial(n - 1, k - 1) + Binomial(n - 1, k)
  }

  function Factorial(n: nat): (r: nat)
    ensures r >= 1
  {
    if n == 0 then 1 else n * Factorial(n - 1)
  }

  lemma {:induction false} BinomialAll(n: nat)
    ensures Binomial(n, n) == 1
  {
    if n > 0 {
      BinomialAll(n - 1);
      assert Binomial(n - 1, n) == 0;
    }
  }

  /** The arithmetic step of `BinomialFactorial`, kept apart so that the
      solver sees only these products. */
  lemma PascalProducts(a: int, b: int, k: int, m: int, x: int, z: int, f: int)
    requires a * x * (m * z) == f
    requires b * (k * x) * z == f
    ensures (a + b) * (k * x) * (m * z) == (k + m) * f
  {
    calc {
      (a + b) * (k * x) * (m * z);
      a * (k * x) * (m * z) + b * (k * x) * (m * z);
      { assert a * (k * x) * (m * z) == k * (a * x * (m * z));
        assert b * (k * x) * (m * z) == m * (b * (k * x) * z); }
      k * f + m * f;
    }
  }

  /** Pascal's rule agrees with the closed form `C(n,k) = n! / (k! (n-k)!)`. */
  lemma {:induction false} BinomialFactorial(n: nat, k: nat)
    requires k <= n
    ensures Binomial(n, k) * Factorial(k) * Factorial(n - k) == Factorial(n)
  {
    if k == 0 {
    } else if k == n {
      BinomialAll(n);
    } else {
      BinomialFactorial(n - 1, k - 1);
      BinomialFactorial(n - 1, k);
      assert n - 1 - (k - 1) == n - k;
      PascalProducts(Binomial(n - 1, k - 1), Binomial(n - 1, k), k, n - k,
                     Factorial(k - 1), Factorial(n - 1 - k), Factorial(n - 1));
    }
  }

  /** `C(n, k) == C(n, n - k)`. */
  lemma {:induction false} BinomialSymmetric(n: nat, k: nat)
    requires k <= n
    ensures Binomial(n, k) == Binomial(n, n - k)
  {
    if k == 0 {
      BinomialAll(n);
    } else if k == n {
      BinomialAll(n);
    } else {
      BinomialSymmetric(n - 1, k - 1);
      BinomialSymmetric(n - 1, k);
      assert Binomial(n, n - k) == Binomial(n - 1, n - k - 1) + Binomial(n - 1, n - k);
    }
  }
}

/** Row offsets: a cursor that advances by a stride, without nonlinear arithmetic. */
module Strides {

  /** n * m, by repeated addition: cursors advance row by row. */
  function Times(n: nat, m: nat): nat {
    if n == 0 then 0 else Times(n - 1, m) + m
  }

  lemma {:induction false} TimesIsProduct(n: nat, m: nat)
    ensures Times(n, m) == n * m
  {
    if n > 0 {
      TimesIsProduct(n - 1, m);
      assert n * m == (n - 1) * m + m;
    }
  }

  lemma {:induction false} TimesMonotone(n: nat, k: nat, m: nat)
    requires n <= k
    ensures Times(n, m) <= Times(k, m)
  {
    if n < k {
      TimesMonotone(n, k - 1, m);
    }
  }
}

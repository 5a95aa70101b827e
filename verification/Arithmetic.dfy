/** Multiplication by repeated addition, for proofs that only need its recurrence. */
module Arithmetic {

  /** uint64_t arithmetic is modulo this. */
  const WORD: int := 0x1_0000_0000_0000_0000

  function Times(k: nat, n: nat): nat {
    if k == 0 then 0 else Times(k - 1, n) + n
  }

  lemma {:induction false} TimesIsProduct(k: nat, n: nat)
    ensures Times(k, n) == k * n
  {
    if k > 0 {
      TimesIsProduct(k - 1, n);
      assert k * n == (k - 1) * n + n;
    }
  }

  lemma {:induction false} TimesMonotone(a: nat, b: nat, n: nat)
    requires a <= b
    ensures Times(a, n) <= Times(b, n)
  {
    if a < b {
      TimesMonotone(a, b - 1, n);
    }
  }

  lemma {:induction false} TimesAdds(a: nat, b: nat, n: nat)
    ensures Times(a + b, n) == Times(a, n) + Times(b, n)
  {
    if b > 0 {
      TimesAdds(a, b - 1, n);
    }
  }

  lemma {:induction false} TimesMonotoneRight(k: nat, m: nat, n: nat)
    requires m <= n
    ensures Times(k, m) <= Times(k, n)
  {
    if k > 0 {
      TimesMonotoneRight(k - 1, m, n);
    }
  }

  lemma {:induction false} TimesDistributes(k: nat, m: nat, n: nat)
    ensures Times(k, m + n) == Times(k, m) + Times(k, n)
  {
    if k > 0 {
      TimesDistributes(k - 1, m, n);
    }
  }

  lemma {:induction false} TimesAssociates(a: nat, b: nat, n: nat)
    ensures Times(Times(a, b), n) == Times(a, Times(b, n))
  {
    if a > 0 {
      TimesAssociates(a - 1, b, n);
      TimesAdds(Times(a - 1, b), b, n);
    }
  }
}

/**
 Products and quotients by repeated addition and subtraction.  They agree with
 the operators of C (TimesIsProduct, QuotIsDiv) and keep proofs linear.
*/
module Arith {

  ghost function Times(k: nat, f: nat): nat {
    if k == 0 then 0 else Times(k - 1, f) + f
  }

  lemma {:induction false} TimesIsProduct(k: nat, f: nat)
    ensures Times(k, f) == k * f
  {
    if k > 0 {
      TimesIsProduct(k - 1, f);
      assert k * f == (k - 1) * f + f;
    }
  }

  lemma {:induction false} TimesSplit(k: nat, a: nat, b: nat)
    ensures Times(k, a + b) == Times(k, a) + Times(k, b)
  {
    if k > 0 { TimesSplit(k - 1, a, b); }
  }

  lemma {:induction false} TimesMono(k: nat, k': nat, f: nat)
    requires k <= k'
    ensures Times(k, f) <= Times(k', f)
  {
    if k < k' { TimesMono(k, k' - 1, f); }
  }

  lemma MulMono(d: nat, a: nat, b: nat)
    requires a <= b
    ensures d * a <= d * b
  {
  }

  lemma DivUnique(n: nat, d: nat, q: nat, r: nat)
    requires d > 0 && n == d * q + r && r < d
    ensures n / d == q && n % d == r
  {
    var q', r' := n / d, n % d;
    assert n == d * q' + r';
    if q' < q {
      MulMono(d, q' + 1, q);
    } else if q < q' {
      MulMono(d, q + 1, q');
    }
  }

  // Division by repeated subtraction; it agrees with the C operators (QuotIsDiv).
  ghost function Quot(n: nat, d: nat): nat
    requires d > 0
  {
    if n < d then 0 else 1 + Quot(n - d, d)
  }

  ghost function Rem(n: nat, d: nat): nat
    requires d > 0
  {
    if n < d then n else Rem(n - d, d)
  }

  lemma {:induction false} QuotRem(n: nat, d: nat)
    requires d > 0
    ensures n == Times(Quot(n, d), d) + Rem(n, d) && Rem(n, d) < d
  {
    if n >= d { QuotRem(n - d, d); }
  }

  lemma QuotIsDiv(n: nat, d: nat)
    requires d > 0
    ensures Quot(n, d) == n / d && Rem(n, d) == n % d
  {
    QuotRem(n, d);
    TimesIsProduct(Quot(n, d), d);
    DivUnique(n, d, Quot(n, d), Rem(n, d));
  }

  lemma {:induction false} QuotOf(k: nat, d: nat, r: nat)
    requires r < d
    ensures Quot(Times(k, d) + r, d) == k && Rem(Times(k, d) + r, d) == r
  {
    if k > 0 { QuotOf(k - 1, d, r); }
  }

  lemma SamePlace(d: nat, a: nat, b: nat)
    requires d > 0 && a != b
    ensures Quot(a, d) != Quot(b, d) || Rem(a, d) != Rem(b, d)
  {
    QuotRem(a, d);
    QuotRem(b, d);
  }
}

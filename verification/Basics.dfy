/** Vocabulary shared by every module of the project. */
module Basics {

  datatype Option<+T> = None | Some(value: T)

  function Max(a: int, b: int): int { if a >= b then a else b }

  function Abs(x: int): nat { if x < 0 then -x else x }

  type Address = nat

  function Digit(n: int): char
    requires 0 <= n < 10
  {
    ('0' as int + n) as char
  }

  /** Decimal text without leading zeros. */
  function Decimal(n: nat): string {
    if n < 10 then [Digit(n)] else Decimal(n / 10) + [Digit(n % 10)]
  }

  ghost predicate Distinct<T>(s: seq<T>) {
    forall i, j :: 0 <= i < j < |s| ==> s[i] != s[j]
  }

  lemma MulMono(a: int, b: int, d: nat)
    requires a <= b
    ensures a * d <= b * d
  {
    assert (b - a) * d >= 0;
  }

  lemma QuotientAtLeast(n: nat, t: nat, d: nat)
    requires d > 0 && n * d <= t
    ensures n <= t / d
  {
    if t / d + 1 <= n {
      MulMono(t / d + 1, n, d);
    }
  }

  /** The product, as repeated addition: `TimesIsProduct` says it is `a * b`, and proofs that
      only move such terms around stay linear. */
  function Times(a: nat, b: nat): nat {
    if b == 0 then 0 else Times(a, b - 1) + a
  }

  lemma {:induction false} TimesIsProduct(a: nat, b: nat)
    ensures Times(a, b) == a * b
  {
    if b > 0 { TimesIsProduct(a, b - 1); }
  }

  lemma {:induction false} TimesMono(a: nat, c: nat, b: nat)
    requires a <= c
    ensures Times(a, b) <= Times(c, b)
  {
    if b > 0 { TimesMono(a, c, b - 1); }
  }

  lemma {:induction false} TimesAdd(a: nat, c: nat, b: nat)
    ensures Times(a + c, b) == Times(a, b) + Times(c, b)
  {
    if b > 0 { TimesAdd(a, c, b - 1); }
  }

  lemma {:induction false} TimesGrows(a: nat, b: nat, c: nat)
    requires b <= c
    ensures Times(a, b) <= Times(a, c)
  {
    if b < c { TimesGrows(a, b, c - 1); }
  }
}

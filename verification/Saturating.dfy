/** Rust's `u64` and `u128` counters with `saturating_add` and `saturating_mul`. */
module Saturating {

  const U64_MAX: nat := 0xFFFF_FFFF_FFFF_FFFF
  const U128_MAX: nat := 0xFFFF_FFFF_FFFF_FFFF_FFFF_FFFF_FFFF_FFFF

  type U64 = x: nat | x <= U64_MAX
  type U128 = x: nat | x <= U128_MAX

  function Cap64(x: nat): U64 {
    if x <= U64_MAX then x else U64_MAX
  }

  function Cap128(x: nat): U128 {
    if x <= U128_MAX then x else U128_MAX
  }

  function Add64(a: U64, b: U64): U64 {
    Cap64(a + b)
  }

  function Add128(a: U128, b: U128): U128 {
    Cap128(a + b)
  }

  /** Multiplication by repeated addition, which keeps the proofs linear. */
  function Times(a: nat, b: nat): nat {
    if a == 0 then 0 else Times(a - 1, b) + b
  }

  function Product(a: nat, b: nat): nat {
    a * b
  }

  lemma {:induction false} TimesIsProduct(a: nat, b: nat)
    ensures Times(a, b) == a * b == Product(a, b)
  {
    if a > 0 {
      TimesIsProduct(a - 1, b);
      assert (a - 1) * b + b == a * b;
    }
  }

  lemma {:induction false} TimesAdds(a: nat, b: nat, r: nat)
    ensures Times(a + b, r) == Times(a, r) + Times(b, r)
  {
    if a > 0 {
      TimesAdds(a - 1, b, r);
    }
  }

  lemma {:induction false} TimesGrows(a: nat, r: nat, s: nat)
    requires r <= s
    ensures Times(a, r) <= Times(a, s)
  {
    if a > 0 {
      TimesGrows(a - 1, r, s);
    }
  }

  function Mul128(a: nat, b: nat): U128 {
    Cap128(Times(a, b))
  }

  lemma AddCapped(a: nat, b: nat)
    ensures Add128(Cap128(a), Cap128(b)) == Cap128(a + b)
  {
  }

  lemma CapGrows(a: nat, b: nat)
    requires a <= b
    ensures Cap128(a) <= Cap128(b)
  {
  }

  function Max(a: int, b: int): int {
    if a >= b then a else b
  }

  function Lower128(a: U128, b: U128): U128 {
    if a <= b then a else b
  }

  function Higher128(a: U128, b: U128): U128 {
    if a >= b then a else b
  }

  function Higher64(a: U64, b: U64): U64 {
    if a >= b then a else b
  }

  /** The exact sum, never capped. */
  function Sum(s: seq<nat>): nat {
    if s == [] then 0 else Sum(s[..|s| - 1]) + s[|s| - 1]
  }

  /** The sum a loop of `saturating_add` calls computes. */
  function SaturatingSum(s: seq<U128>): U128 {
    if s == [] then 0 else Add128(SaturatingSum(s[..|s| - 1]), s[|s| - 1])
  }

  lemma {:induction false} CappedTermsSumToCappedSum(exact: seq<nat>, capped: seq<U128>)
    requires |exact| == |capped|
    requires forall i :: 0 <= i < |exact| ==> capped[i] == Cap128(exact[i])
    ensures SaturatingSum(capped) == Cap128(Sum(exact))
  {
    if exact == [] {
    } else {
      CappedTermsSumToCappedSum(exact[..|exact| - 1], capped[..|capped| - 1]);
    }
  }
}

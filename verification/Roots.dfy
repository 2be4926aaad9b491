/** Integer square roots. */
module Roots {

  ghost predicate IsRoot(r: nat, n: nat) {
    r * r <= n < (r + 1) * (r + 1)
  }

  lemma SquaresGrow(a: nat, b: nat)
    requires a <= b
    ensures a * a <= b * b
  {
    assert a * a <= a * b <= b * b;
  }

  /** The floor of the square root. */
  function Isqrt(n: nat): nat {
    if n == 0 then 0 else
      var r := Isqrt(n - 1);
      if (r + 1) * (r + 1) <= n then r + 1 else r
  }

  lemma {:induction false} IsqrtIsRoot(n: nat)
    ensures IsRoot(Isqrt(n), n)
  {
    if n > 0 {
      IsqrtIsRoot(n - 1);
      var r := Isqrt(n - 1);
      assert (r + 2) * (r + 2) == (r + 1) * (r + 1) + 2 * r + 3;
    }
  }

  /** Squares compare like their roots. */
  lemma RootsCompare(a: nat, b: nat)
    requires a * a <= b * b
    ensures a <= b
  {
    assert (b + 1) * (b + 1) == b * b + 2 * b + 1;
    if a > b {
      SquaresGrow(b + 1, a);
    }
  }
}

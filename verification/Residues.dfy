/** Arithmetic modulo a fixed number. */
module Residues {

  lemma RemainderIsUnique(a: int, m: int, q: int, r: int)
    requires m > 0 && 0 <= r < m && a == m * q + r
    ensures a % m == r
  {
    var d := q - a / m;
    assert m * d == a % m - r;
    if d > 0 {
      Least(m, d);
    } else if d < 0 {
      Least(m, 0 - d);
      Opposite(m, d);
    }
  }

  lemma Least(m: int, d: int)
    requires m > 0 && d > 0
    ensures m * d >= m
  {
  }

  lemma Opposite(m: int, d: int)
    ensures m * (0 - d) == 0 - m * d
  {
  }

  lemma AddMultiple(a: int, k: int, m: int)
    requires m > 0
    ensures (a + k * m) % m == a % m
  {
    assert a + k * m == m * (a / m + k) + a % m;
    RemainderIsUnique(a + k * m, m, a / m + k, a % m);
  }

  /** A term may be reduced before it is added. */
  lemma AddReduced(a: int, b: int, m: int)
    requires m > 0
    ensures (a % m + b) % m == (a + b) % m
  {
    assert a + b == a % m + b + (a / m) * m;
    AddMultiple(a % m + b, a / m, m);
  }

  /** A factor may be reduced before it is multiplied. */
  lemma MultiplyReduced(a: int, k: int, m: int)
    requires m > 0
    ensures (k * (a % m)) % m == (k * a) % m
  {
    var q := a / m;
    assert a == a % m + q * m;
    Distribute(k, a % m, q, m);
    AddMultiple(k * (a % m), k * q, m);
  }

  lemma Distribute(k: int, r: int, q: int, m: int)
    ensures k * (r + q * m) == k * r + (k * q) * m
  {
  }

  /** Doubling the addend and halving the multiplier keeps a running sum. */
  lemma DoubleAndHalve(sum: int, rest: nat, addend: int, m: int)
    requires m > 0
    ensures var next := if rest % 2 == 1 then (sum + addend) % m else sum;
            (next + rest / 2 * ((addend + addend) % m)) % m == (sum + rest * addend) % m
  {
    var half := rest / 2;
    var double := addend + addend;
    var kept := if rest % 2 == 1 then sum + addend else sum;
    Halves(rest, half, addend);
    MultiplyReduced(double, half, m);
    AddReduced(half * (double % m), kept, m);
    AddReduced(half * double, kept, m);
    AddReduced(kept, half * (double % m), m);
  }

  lemma Halves(rest: nat, half: nat, addend: int)
    requires half == rest / 2
    ensures rest * addend == half * (addend + addend) + if rest % 2 == 1 then addend else 0
  {
    if rest % 2 == 1 {
      assert rest == 2 * half + 1;
    } else {
      assert rest == 2 * half;
    }
  }
}

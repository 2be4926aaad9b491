/**
 The exact eclipse emission: floor(E0 * R^n) for R = (sqrt 5 - 1) / 2, computed with integers only. A
 `Golden` value stands for (p + q * sqrt 5) / 2, so the floor is stated and proved without real numbers.
 */
module Emission {
  import opened Calendar
  import opened Roots

  // ----- half-integers over sqrt 5

  datatype Golden = Golden(p: int, q: int)

  /** Whether a + b * sqrt 5 is at least zero. */
  ghost predicate AtLeastZero(a: int, b: int) {
    if a >= 0 then b >= 0 || a * a >= 5 * b * b else b > 0 && 5 * b * b >= a * a
  }

  /** Whether k <= (p + q * sqrt 5) / 2 < k + 1. */
  ghost predicate IsFloor(k: int, x: Golden) {
    AtLeastZero(x.p - 2 * k, x.q) && !AtLeastZero(x.p - 2 * (k + 1), x.q)
  }

  /** x times R, for x whose halves have one parity. */
  ghost function TimesR(x: Golden): Golden {
    Golden((5 * x.q - x.p) / 2, (x.p - x.q) / 2)
  }

  /** R to the n. */
  ghost function PowerOfR(n: nat): (x: Golden)
    ensures (x.p - x.q) % 2 == 0
  {
    if n == 0 then Golden(2, 0) else TimesR(PowerOfR(n - 1))
  }

  ghost function Scaled(k: int, x: Golden): Golden {
    Golden(k * x.p, k * x.q)
  }

  // ----- Fibonacci and Lucas numbers

  ghost function Fib(n: nat): nat {
    if n == 0 then 0 else if n == 1 then 1 else Fib(n - 1) + Fib(n - 2)
  }

  ghost function Lucas(n: nat): nat {
    if n == 0 then 2 else if n == 1 then 1 else Lucas(n - 1) + Lucas(n - 2)
  }

  method FibonacciLucas(n: nat) returns (f: nat, l: nat)
    ensures f == Fib(n) && l == Lucas(n)
  {
    var fPrev, fCurr := 0, 1;
    var lPrev, lCurr := 2, 1;
    if n == 0 {
      return fPrev, lPrev;
    }
    for i := 1 to n
      invariant fPrev == Fib(i - 1) && fCurr == Fib(i)
      invariant lPrev == Lucas(i - 1) && lCurr == Lucas(i)
    {
      fPrev, fCurr := fCurr, fPrev + fCurr;
      lPrev, lCurr := lCurr, lPrev + lCurr;
    }
    return fCurr, lCurr;
  }

  lemma FirstPair()
    ensures Fib(0) == 0 && Lucas(0) == 2 && Fib(1) == 1 && Lucas(1) == 1
  {
  }

  /** One step of both sequences. */
  lemma {:induction false} NextPair(n: nat)
    ensures 2 * Fib(n + 1) == Lucas(n) + Fib(n) && 2 * Lucas(n + 1) == Lucas(n) + 5 * Fib(n)
  {
    if n > 0 {
      NextPair(n - 1);
    }
  }

  /** Lucas squared is five Fibonacci squared, plus or minus four. */
  lemma {:induction false} LucasIdentity(n: nat)
    ensures Lucas(n) * Lucas(n) - 5 * Fib(n) * Fib(n) == if n % 2 == 0 then 4 else -4
  {
    hide Fib, Lucas;
    FirstPair();
    if n > 0 {
      LucasIdentity(n - 1);
      NextPair(n - 1);
      SquaresStep(Fib(n - 1), Lucas(n - 1), Fib(n), Lucas(n));
    }
  }

  lemma SquaresStep(f: nat, l: nat, f': nat, l': nat)
    requires 2 * f' == l + f && 2 * l' == l + 5 * f
    ensures l' * l' - 5 * f' * f' == 5 * f * f - l * l
  {
    assert 4 * (l' * l') == (l + 5 * f) * (l + 5 * f);
    assert 4 * (f' * f') == (l + f) * (l + f);
  }

  /** R to the n is (L - F * sqrt 5) / 2 up to its sign. */
  lemma {:induction false} PowerIsLucas(n: nat)
    ensures PowerOfR(n) == if n % 2 == 0 then Golden(Lucas(n), 0 - Fib(n)) else Golden(0 - Lucas(n), Fib(n))
  {
    hide *;
    FirstPair();
    PowerStep(n);
    if n > 0 {
      PowerIsLucas(n - 1);
      NextPair(n - 1);
      TurnedByR(Lucas(n - 1), Fib(n - 1), Lucas(n), Fib(n));
    }
  }

  lemma PowerStep(n: nat)
    ensures PowerOfR(n) == if n == 0 then Golden(2, 0) else TimesR(PowerOfR(n - 1))
  {
  }

  /** Multiplying by R steps both sequences and turns the sign. */
  lemma TurnedByR(l: nat, f: nat, l': nat, f': nat)
    requires 2 * f' == l + f && 2 * l' == l + 5 * f
    ensures TimesR(Golden(l, 0 - f)) == Golden(0 - l', f')
    ensures TimesR(Golden(0 - l, f)) == Golden(l', 0 - f')
  {
  }

  lemma {:induction false} FibIsPositive(n: nat)
    ensures n > 0 ==> Fib(n) > 0
    ensures Lucas(n) > 0
  {
    if n > 1 {
      FibIsPositive(n - 1);
      FibIsPositive(n - 2);
    }
  }

  // ----- the integer square root

  function Pow2(e: nat): nat {
    if e == 0 then 1 else 2 * Pow2(e - 1)
  }

  /** The length of a number in bits. */
  function BitLength(n: nat): (bits: nat)
    ensures n < Pow2(bits)
  {
    if n == 0 then 0 else 1 + BitLength(n / 2)
  }

  lemma {:induction false} Pow2Adds(a: nat, b: nat)
    ensures Pow2(a + b) == Pow2(a) * Pow2(b)
    ensures Pow2(a) >= 1
  {
    if a > 0 {
      Pow2Adds(a - 1, b);
      assert Pow2(a) * Pow2(b) == 2 * (Pow2(a - 1) * Pow2(b));
    }
  }

  lemma SeedIsAbove(n: nat, x: nat)
    requires x == Pow2((BitLength(n) + 1) / 2)
    ensures x > 0 && n < x * x
  {
    hide Pow2;
    HalfOfBits(n, BitLength(n));
  }

  lemma HalfOfBits(n: nat, bits: nat)
    requires n < Pow2(bits)
    ensures Pow2((bits + 1) / 2) > 0
    ensures n < Pow2((bits + 1) / 2) * Pow2((bits + 1) / 2)
  {
    hide Pow2;
    var half := (bits + 1) / 2;
    Pow2Adds(half, half);
    Pow2Adds(bits, half + half - bits);
    Pow2Adds(half + half - bits, 0);
    assert bits + (half + half - bits) == half + half;
    AtLeastOnce(Pow2(bits), Pow2(half + half - bits));
  }

  lemma AtLeastOnce(a: nat, b: nat)
    requires b >= 1
    ensures a * b >= a
  {
    assert a * b == a * (b - 1) + a;
  }

  /** The mean of x and n / x does not fall below the root. */
  lemma NewtonStaysAbove(n: nat, x: nat, y: nat)
    requires x > 0 && y == (x + n / x) / 2
    ensures n < (y + 1) * (y + 1)
  {
    var m := n / x;
    DivisionLeaves(n, x, m);
    var t := x + m + 1;
    assert t * t == 4 * (x * (m + 1)) + (x - (m + 1)) * (x - (m + 1));
    Square(x - (m + 1));
    assert t <= 2 * (y + 1);
    SquaresGrow(t, 2 * (y + 1));
    assert (2 * (y + 1)) * (2 * (y + 1)) == 4 * ((y + 1) * (y + 1));
  }

  lemma DivisionLeaves(n: nat, x: nat, m: nat)
    requires x > 0 && m == n / x
    ensures x * m <= n < x * (m + 1)
  {
    assert n == x * m + n % x;
    assert x * (m + 1) == x * m + x;
  }

  lemma Square(a: int)
    ensures a * a >= 0
  {
  }

  /** The integer square root by Newton's method from a power of two above it. */
  method IsqrtNewton(n: nat) returns (r: nat)
    ensures IsRoot(r, n)
  {
    hide Pow2, BitLength;
    if n == 0 {
      return 0;
    }
    var bits := BitLength(n);
    r := Pow2((bits + 1) / 2);
    SeedIsAbove(n, r);
    while true
      invariant r > 0 && n < (r + 1) * (r + 1)
      decreases r
    {
      var y := (r + n / r) / 2;
      if y >= r {
        StopsAtRoot(n, r);
        break;
      }
      NewtonStaysAbove(n, r, y);
      r := y;
    }
  }

  lemma StopsAtRoot(n: nat, x: nat)
    requires x > 0 && (x + n / x) / 2 >= x
    ensures x * x <= n
  {
    DivisionLeaves(n, x, n / x);
    assert x * x <= x * (n / x);
  }

  // ----- sqrt 5 is irrational

  lemma MultipleOfFive(r: nat)
    requires (r * r) % 5 == 0
    ensures r % 5 == 0
  {
    var t, m := r / 5, r % 5;
    Expand(t, m);
    SameRemainder(5 * t * t + 2 * t * m, m * m);
    DigitSquares(m);
  }

  lemma DigitSquares(m: nat)
    requires m < 5
    ensures m * m == if m == 0 then 0 else if m == 1 then 1 else if m == 2 then 4 else if m == 3 then 9 else 16
  {
  }

  lemma Expand(t: nat, m: nat)
    ensures (5 * t + m) * (5 * t + m) == 5 * (5 * t * t + 2 * t * m) + m * m
  {
  }

  lemma SameRemainder(k: nat, v: nat)
    ensures (5 * k + v) % 5 == v % 5
  {
  }

  /** Five times a square is never a square. */
  lemma {:induction false} NeverASquare(q: nat, r: nat)
    requires q > 0
    ensures r * r != 5 * q * q
    decreases q
  {
    if r * r == 5 * q * q {
      assert r * r == 5 * (q * q);
      MultipleOfFive(r);
      var t := r / 5;
      assert r * r == 25 * (t * t);
      assert q * q == 5 * (t * t);
      if t >= q {
        SquaresGrow(q, t);
      }
      Positive(q, t);
      NeverASquare(t, q);
    }
  }

  lemma Positive(q: nat, t: nat)
    requires q > 0 && q * q == 5 * (t * t)
    ensures t > 0
  {
  }

  // ----- floors

  lemma SquareWithin(a: int, r: nat)
    requires 0 - r <= a <= r
    ensures a * a <= r * r
  {
    var b := if a < 0 then -a else a;
    assert a * a == b * b;
    SquaresGrow(b, r);
  }

  /** With q above zero the floor of the root is close enough. */
  lemma FloorAbove(p: int, q: int, root: nat, k: int)
    requires q > 0 && IsRoot(root, 5 * q * q) && k == (p + root) / 2
    ensures IsFloor(k, Golden(p, q))
  {
    var a := p - 2 * k;
    if a < 0 {
      SquareWithin(a, root);
    }
    var b := -(a - 2);
    assert b >= root + 1;
    SquaresGrow(root + 1, b);
    assert (a - 2) * (a - 2) == b * b;
  }

  /** With q below zero the irrational part costs one more unit. */
  lemma FloorBelow(p: int, q: int, root: nat, k: int)
    requires q < 0 && IsRoot(root, 5 * q * q) && k == (p - root - 1) / 2
    ensures IsFloor(k, Golden(p, q))
  {
    NeverASquare(-q, root);
    assert 5 * (-q) * (-q) == 5 * q * q;
    var a := p - 2 * k;
    assert a >= root + 1;
    SquaresGrow(root + 1, a);
    if a - 2 >= 0 {
      SquareWithin(a - 2, root);
    }
  }

  lemma AtLeastZeroGrows(a: int, a': int, b: int)
    requires AtLeastZero(a, b) && a <= a'
    ensures AtLeastZero(a', b)
  {
    if a >= 0 {
      SquaresGrow(a, a');
    } else if a' < 0 {
      SquareWithin(a', -a);
      assert a * a == (-a) * (-a);
    }
  }

  lemma FloorIsUnique(k: int, k': int, x: Golden)
    requires IsFloor(k, x) && IsFloor(k', x)
    ensures k == k'
  {
    hide AtLeastZero;
    if k < k' {
      AtLeastZeroGrows(x.p - 2 * k', x.p - 2 * (k + 1), x.q);
    } else if k' < k {
      AtLeastZeroGrows(x.p - 2 * k, x.p - 2 * (k' + 1), x.q);
    }
  }

  /** E0 * R^n is never below zero: the Lucas identity says by how much the squares differ. */
  lemma EmissionIsAboveZero(n: nat)
    ensures var x := Scaled(E0_ATU, PowerOfR(n)); AtLeastZero(x.p, x.q)
  {
    hide AtLeastZero, Fib, Lucas, PowerOfR;
    PowerIsLucas(n);
    LucasIdentity(n);
    ScaledAboveZero(E0_ATU, Fib(n), Lucas(n));
  }

  lemma ScaledAboveZero(e: nat, f: nat, l: nat)
    requires e > 0
    ensures l * l > 5 * f * f ==> AtLeastZero(e * l, e * (0 - f))
    ensures l * l < 5 * f * f ==> AtLeastZero(e * (0 - l), e * f)
  {
    ScaledSquares(e, f, l);
    Negated(e, f);
    Negated(e, l);
    if l * l < 5 * f * f {
      assert f > 0;
      AtLeastOnce(f, e);
    }
  }

  lemma Negated(e: nat, v: nat)
    ensures e * (0 - v) == 0 - e * v && (0 - e * v) * (0 - e * v) == (e * v) * (e * v)
    ensures 5 * (0 - e * v) * (0 - e * v) == 5 * (e * v) * (e * v)
  {
  }

  lemma ScaledSquares(e: nat, f: nat, l: nat)
    ensures (e * l) * (e * l) == (e * e) * (l * l)
    ensures 5 * (e * f) * (e * f) == (e * e) * (5 * f * f)
    ensures l * l >= 5 * f * f ==> (e * l) * (e * l) >= 5 * (e * f) * (e * f)
    ensures l * l <= 5 * f * f ==> (e * l) * (e * l) <= 5 * (e * f) * (e * f)
  {
    Rearrange(e, l);
    Rearrange(e, f);
    assert 5 * (e * f) * (e * f) == 5 * ((e * f) * (e * f));
    assert (e * e) * (5 * f * f) == 5 * ((e * e) * (f * f));
    Square(e);
    ProductGrows(e * e, l * l, 5 * f * f);
    ProductGrows(e * e, 5 * f * f, l * l);
  }

  lemma Rearrange(a: nat, b: nat)
    ensures (a * b) * (a * b) == (a * a) * (b * b)
  {
  }

  lemma ProductGrows(c: nat, a: nat, b: nat)
    ensures a <= b ==> c * a <= c * b
  {
  }

  lemma FloorIsNatural(n: nat, k: int)
    requires IsFloor(k, Scaled(E0_ATU, PowerOfR(n)))
    ensures k >= 0
  {
    hide AtLeastZero, Scaled, PowerOfR;
    var x := Scaled(E0_ATU, PowerOfR(n));
    EmissionIsAboveZero(n);
    if k < 0 {
      AtLeastZeroGrows(x.p, x.p - 2 * (k + 1), x.q);
    }
  }

  // ----- the emission

  /** floor(E0 * R^n), for every n. */
  method ExactEclipseEmission(n: nat) returns (k: nat)
    ensures IsFloor(k, Scaled(E0_ATU, PowerOfR(n)))
  {
    PowerIsLucas(n);
    if n == 0 {
      return E0_ATU;
    }
    var f, l := FibonacciLucas(n);
    FibIsPositive(n);
    var p, q := if n % 2 == 0 then E0_ATU * l else -(E0_ATU * l), if n % 2 == 0 then -(E0_ATU * f) else E0_ATU * f;
    var root := IsqrtNewton(5 * q * q);
    ghost var x := Scaled(E0_ATU, PowerOfR(n));
    var floor := if q > 0 then (p + root) / 2 else (p - root - 1) / 2;
    if q > 0 {
      FloorAbove(p, q, root, floor);
    } else {
      FloorBelow(p, q, root, floor);
    }
    FloorIsNatural(n, floor);
    k := floor;
  }

  // ----- the archived table

  /** One entry, checked against the pair of its eclipse. */
  lemma Entry(n: nat, f: nat, l: nat, k: nat)
    requires Fib(n) == f && Lucas(n) == l
    requires IsFloor(k, if n % 2 == 0 then Golden(E0_ATU * l, -(E0_ATU * f)) else Golden(-(E0_ATU * l), E0_ATU * f))
    ensures IsFloor(k, Scaled(E0_ATU, PowerOfR(n)))
  {
    hide AtLeastZero;
    PowerIsLucas(n);
  }

  /** An entry of the table, and the pair of the next eclipse. */
  lemma EntryOf(n: nat, f: nat, l: nat, k: nat)
    requires n < ECLIPSES && ECLIPSE_EMISSIONS_ATU[n] == k && Fib(n) == f && Lucas(n) == l
    requires IsFloor(k, if n % 2 == 0 then Golden(6_180_340 * l, -(6_180_340 * f))
                        else Golden(-(6_180_340 * l), 6_180_340 * f))
    ensures IsFloor(ECLIPSE_EMISSIONS_ATU[n], Scaled(E0_ATU, PowerOfR(n)))
    ensures 2 * Fib(n + 1) == l + f && 2 * Lucas(n + 1) == l + 5 * f
  {
    Entry(n, f, l, k);
    NextPair(n);
  }

  ghost predicate TableHolds(from: nat, to: nat)
    requires from <= to < ECLIPSES
  {
    forall n: nat | from <= n < to :: IsFloor(ECLIPSE_EMISSIONS_ATU[n], Scaled(E0_ATU, PowerOfR(n)))
  }

  lemma Entries0To1()
    ensures TableHolds(0, 2)
    ensures Fib(2) == 1 && Lucas(2) == 3
  {
    hide Scaled, PowerOfR, Fib, Lucas;
    FirstPair();
    EntryOf(0, 0, 2, 6_180_340);
    EntryOf(1, 1, 1, 3_819_660);
  }

  lemma Entries2To4()
    requires Fib(2) == 1 && Lucas(2) == 3
    ensures TableHolds(2, 5)
    ensures Fib(5) == 5 && Lucas(5) == 11
  {
    hide Scaled, PowerOfR, Fib, Lucas;
    EntryOf(2, 1, 3, 2_360_679);
    EntryOf(3, 2, 4, 1_458_980);
    EntryOf(4, 3, 7, 901_699);
  }

  lemma Entries5To8()
    requires Fib(5) == 5 && Lucas(5) == 11
    ensures TableHolds(5, 9)
    ensures Fib(9) == 34 && Lucas(9) == 76
  {
    hide Scaled, PowerOfR, Fib, Lucas;
    EntryOf(5, 5, 11, 557_280);
    EntryOf(6, 8, 18, 344_418);
    EntryOf(7, 13, 29, 212_862);
    EntryOf(8, 21, 47, 131_556);
  }

  lemma Entries9To12()
    requires Fib(9) == 34 && Lucas(9) == 76
    ensures TableHolds(9, 13)
    ensures Fib(13) == 233 && Lucas(13) == 521
  {
    hide Scaled, PowerOfR, Fib, Lucas;
    EntryOf(9, 34, 76, 81_306);
    EntryOf(10, 55, 123, 50_249);
    EntryOf(11, 89, 199, 31_056);
    EntryOf(12, 144, 322, 19_193);
  }

  lemma Entries13To16()
    requires Fib(13) == 233 && Lucas(13) == 521
    ensures TableHolds(13, 17)
    ensures Fib(17) == 1_597 && Lucas(17) == 3_571
  {
    hide Scaled, PowerOfR, Fib, Lucas;
    EntryOf(13, 233, 521, 11_862);
    EntryOf(14, 377, 843, 7_331);
    EntryOf(15, 610, 1_364, 4_531);
    EntryOf(16, 987, 2_207, 2_800);
  }

  lemma Entries17To20()
    requires Fib(17) == 1_597 && Lucas(17) == 3_571
    ensures TableHolds(17, 21)
    ensures Fib(21) == 10_946 && Lucas(21) == 24_476
  {
    hide Scaled, PowerOfR, Fib, Lucas;
    EntryOf(17, 1_597, 3_571, 1_730);
    EntryOf(18, 2_584, 5_778, 1_069);
    EntryOf(19, 4_181, 9_349, 661);
    EntryOf(20, 6_765, 15_127, 408);
  }

  lemma Entries21To24()
    requires Fib(21) == 10_946 && Lucas(21) == 24_476
    ensures TableHolds(21, 25)
    ensures Fib(25) == 75_025 && Lucas(25) == 167_761
  {
    hide Scaled, PowerOfR, Fib, Lucas;
    EntryOf(21, 10_946, 24_476, 252);
    EntryOf(22, 17_711, 39_603, 156);
    EntryOf(23, 28_657, 64_079, 96);
    EntryOf(24, 46_368, 103_682, 59);
  }

  lemma Entries25To28()
    requires Fib(25) == 75_025 && Lucas(25) == 167_761
    ensures TableHolds(25, 29)
    ensures Fib(29) == 514_229 && Lucas(29) == 1_149_851
  {
    hide Scaled, PowerOfR, Fib, Lucas;
    EntryOf(25, 75_025, 167_761, 36);
    EntryOf(26, 121_393, 271_443, 22);
    EntryOf(27, 196_418, 439_204, 14);
    EntryOf(28, 317_811, 710_647, 8);
  }

  lemma Entries29To32()
    requires Fib(29) == 514_229 && Lucas(29) == 1_149_851
    ensures TableHolds(29, 33)
    ensures Fib(33) == 3_524_578 && Lucas(33) == 7_881_196
  {
    hide Scaled, PowerOfR, Fib, Lucas;
    EntryOf(29, 514_229, 1_149_851, 5);
    EntryOf(30, 832_040, 1_860_498, 3);
    EntryOf(31, 1_346_269, 3_010_349, 2);
    EntryOf(32, 2_178_309, 4_870_847, 1);
  }

  /** The archived table is the closed form, entry by entry; only the last one absorbs the remainder to the cap. */
  lemma TableIsExact(n: nat, k: int)
    requires n < ECLIPSES - 1 && IsFloor(k, Scaled(E0_ATU, PowerOfR(n)))
    ensures k == ECLIPSE_EMISSIONS_ATU[n]
  {
    hide IsFloor, Scaled, PowerOfR, Fib, Lucas;
    Entries0To1();
    Entries2To4();
    Entries5To8();
    Entries9To12();
    Entries13To16();
    Entries17To20();
    Entries21To24();
    Entries25To28();
    Entries29To32();
    FloorIsUnique(k, ECLIPSE_EMISSIONS_ATU[n], Scaled(E0_ATU, PowerOfR(n)));
  }
}

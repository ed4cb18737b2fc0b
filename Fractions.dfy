/** The two pieces of Python's fractions.Fraction that the period recovery
    relies on, on exact integers: turning the phase s / 2^t into a fraction in
    lowest terms, and Fraction.limit_denominator, the continued-fraction
    search for a nearby fraction with a bounded denominator.
 */
module Fractions {
  import opened Bits

  // ---------------------------------------------------------------- divisibility

  ghost predicate Divides(c: nat, x: int)
  {
    c >= 1 && x % c == 0
  }

  /** x and y have no common divisor but 1: a fraction x / y in lowest terms. */
  ghost predicate Coprime(x: int, y: int)
  {
    forall c: nat :: Divides(c, x) && Divides(c, y) ==> c == 1
  }

  lemma {:induction false} ProductSign(c: int, z: int)
    requires c >= 1
    ensures z >= 1 ==> c * z >= c
    ensures z <= -1 ==> c * z <= -c
    ensures z == 0 ==> c * z == 0
  {
  }

  lemma {:induction false} TimesZero(x: int, z: int)
    ensures z == 0 ==> x * z == 0
  {
  }

  lemma {:induction false} NonNegativeProduct(x: int, y: int)
    requires x >= 0 && y >= 0
    ensures x * y >= 0
  {
  }

  lemma {:induction false} MultipleDivides(c: nat, m: int)
    requires c >= 1
    ensures Divides(c, c * m)
  {
    var q, r := (c * m) / c, (c * m) % c;
    assert c * (m - q) == r;
    ProductSign(c, m - q);
  }

  lemma {:induction false} DividesWitness(c: nat, x: int)
    requires Divides(c, x)
    ensures x == c * (x / c)
  {
  }

  lemma {:induction false} DividesCombination(c: nat, x: int, y: int, u: int, v: int)
    requires Divides(c, x) && Divides(c, y)
    ensures Divides(c, x * u + y * v)
  {
    var i, j := x / c, y / c;
    DividesWitness(c, x);
    DividesWitness(c, y);
    assert x * u + y * v == c * (i * u + j * v);
    MultipleDivides(c, i * u + j * v);
  }

  lemma {:induction false} DividesUnit(c: nat, x: int)
    requires Divides(c, x) && (x == 1 || x == -1)
    ensures c == 1
  {
    DividesWitness(c, x);
    ProductSign(c, x / c);
  }

  /** A common divisor of N and D is 1 when N / D is in lowest terms. */
  lemma {:induction false} CommonFactor(N: int, D: int, d: nat, x: int, y: int)
    requires Coprime(N, D) && d >= 1 && N == d * x && D == d * y
    ensures d == 1
  {
    MultipleDivides(d, x);
    MultipleDivides(d, y);
  }

  /** Two fractions whose cross products differ by one are both in lowest terms;
      this is what keeps the continued-fraction candidates reduced. */
  lemma {:induction false} CoprimeByDeterminant(x: int, y: int, u: int, v: int)
    requires x * v - u * y == 1 || x * v - u * y == -1
    ensures Coprime(x, y)
  {
    forall c: nat | Divides(c, x) && Divides(c, y)
      ensures c == 1
    {
      DividesCombination(c, x, y, v, -u);
      assert x * v + y * -u == x * v - u * y;
      DividesUnit(c, x * v - u * y);
    }
  }

  // ---------------------------------------------------------------- parity

  lemma {:induction false} OddFactor(a: int, b: int)
    requires a % 2 == 1 && (a * b) % 2 == 0
    ensures b % 2 == 0
  {
    var h := b / 2;
    assert a * b == 2 * (a * h) + a * (b % 2);
  }

  lemma {:induction false} OddDividesPow2(c: nat, j: nat)
    requires c % 2 == 1 && Divides(c, Pow2(j))
    ensures c == 1
    decreases j
  {
    if j == 0 {
      DividesUnit(c, 1);
    } else {
      var m := Pow2(j) / c;
      DividesWitness(c, Pow2(j));
      assert c * m == 2 * Pow2(j - 1);
      OddFactor(c, m);
      var h := m / 2;
      assert 2 * (c * h) == 2 * Pow2(j - 1);
      MultipleDivides(c, h);
      OddDividesPow2(c, j - 1);
    }
  }

  lemma {:induction false} OddCoprimePow2(x: int, j: nat)
    requires x % 2 == 1
    ensures Coprime(x, Pow2(j))
  {
    forall c: nat | Divides(c, x) && Divides(c, Pow2(j))
      ensures c == 1
    {
      DividesWitness(c, x);
      var m, h := x / c, c / 2;
      assert x == 2 * (h * m) + (c % 2) * m;
      OddDividesPow2(c, j);
    }
  }

  /** 2^j divides x * r with x odd only by dividing r. */
  lemma {:induction false} Pow2DividesProduct(x: int, r: int, j: nat, m: int)
    requires x % 2 == 1 && x * r == Pow2(j) * m
    ensures Divides(Pow2(j), r)
    decreases j
  {
    if j > 0 {
      assert x * r == 2 * (Pow2(j - 1) * m);
      OddFactor(x, r);
      var h := r / 2;
      assert 2 * (x * h) == 2 * (Pow2(j - 1) * m);
      Pow2DividesProduct(x, h, j - 1, m);
      DividesWitness(Pow2(j - 1), h);
      var w := h / Pow2(j - 1);
      assert r == Pow2(j) * w;
      MultipleDivides(Pow2(j), w);
    }
  }

  // ---------------------------------------------------------------- Fraction(s / 2^t)

  /** Fraction(phase) for phase = s / 2^t, as (numerator, e) with denominator 2^e:
      factors of two are cancelled until the numerator is odd or the
      denominator is 1; zero becomes 0 / 1. */
  function DyadicRatio(s: nat, t: nat): (f: (nat, nat))
    ensures f.1 <= t && f.0 * Pow2(t) == s * Pow2(f.1)
    ensures f.1 == 0 || f.0 % 2 == 1
    decreases t
  {
    if s == 0 then (0, 0)
    else if t > 0 && s % 2 == 0 then DyadicRatio(s / 2, t - 1)
    else (s, t)
  }

  /** The fraction DyadicRatio builds is in lowest terms. */
  lemma {:induction false} DyadicLowest(s: nat, t: nat)
    ensures Coprime(DyadicRatio(s, t).0, Pow2(DyadicRatio(s, t).1))
  {
    var f := DyadicRatio(s, t);
    if f.1 == 0 {
      forall c: nat | Divides(c, f.0) && Divides(c, Pow2(0))
        ensures c == 1
      {
        DividesUnit(c, 1);
      }
    } else {
      OddCoprimePow2(f.0, f.1);
    }
  }

  // ---------------------------------------------------------------- limit_denominator

  function Abs(x: int): nat
  {
    if x < 0 then -x else x
  }

  /** |p / q - N / D| scaled by q * D. */
  function Dist(p: int, q: int, N: int, D: int): nat
  {
    Abs(p * D - N * q)
  }

  function RealAbs(x: real): real
  {
    if x < 0.0 then -x else x
  }

  lemma {:induction false} CastProduct(a: int, b: int)
    ensures (a * b) as real == a as real * b as real
  {
  }

  /** |p / q - N / D| as an exact rational is Dist(p, q, N, D) / (q D). */
  lemma {:induction false} DistReal(p: int, q: int, N: int, D: int)
    requires q >= 1 && D >= 1
    ensures RealAbs(p as real / q as real - N as real / D as real) == Dist(p, q, N, D) as real / (q as real * D as real)
  {
    CastProduct(q, D);
    assert p as real / q as real - N as real / D as real == (p * D - N * q) as real / (q * D) as real;
  }

  /** x / (q D) <= y / (e D) exactly when x e <= y q, for positive q, e, D:
      with DistReal, comparing Dist(p1, q1, N, D) * b1 with Dist(b0, b1, N, D) * q1
      is comparing |p1 / q1 - N / D| with |b0 / b1 - N / D|. */
  lemma {:induction false} CrossCompare(x: real, y: real, q: real, e: real, D: real)
    requires q > 0.0 && e > 0.0 && D > 0.0
    ensures x / (q * D) <= y / (e * D) <==> x * e <= y * q
  {
    DivCompare(x, y, q * D, e * D);
    assert x * (e * D) == (x * e) * D && y * (q * D) == (y * q) * D;
    ScaleCompare(x * e, y * q, D);
  }

  lemma {:induction false} DivCompare(x: real, y: real, a: real, b: real)
    requires a > 0.0 && b > 0.0
    ensures x / a <= y / b <==> x * b <= y * a
  {
    assert x / a * (a * b) == x * b;
    assert y / b * (a * b) == y * a;
    ScaleCompare(x / a, y / b, a * b);
  }

  lemma {:induction false} ScaleCompare(u: real, v: real, c: real)
    requires c > 0.0
    ensures u <= v <==> u * c <= v * c
  {
    assert (v - u) * c == v * c - u * c;
  }

  function Det(p0: int, q0: int, p1: int, q1: int): int
  {
    p1 * q0 - p0 * q1
  }

  /** The state of the continued-fraction loop of limit_denominator for N / D:
      p0/q0 and p1/q1 are the last two convergents and n / d the remainder,
      so that N / D = (p1 n + p0 d) / (q1 n + q0 d). */
  ghost predicate Expanding(N: nat, D: nat, maxDen: nat, p0: int, q0: int, p1: int, q1: int, n: int, d: int)
  {
    D > maxDen >= 1 && Coprime(N, D) && d >= 1 &&
    p0 >= 0 && q0 >= 0 && p1 >= 0 && q1 >= 0 && n >= 0 &&
    N == p1 * n + p0 * d && D == q1 * n + q0 * d &&
    q0 <= maxDen && q1 <= maxDen &&
    (Det(p0, q0, p1, q1) == 1 || Det(p0, q0, p1, q1) == -1) &&
    (q1 == 0 ==> q0 == 1) && (q0 == 0 ==> q1 == 1)
  }

  lemma {:induction false} QuotientFacts(n: int, d: int, p1: int, q1: int)
    requires n >= 0 && d >= 1 && p1 >= 0 && q1 >= 0
    ensures n / d >= 0 && n - (n / d) * d == n % d && 0 <= n % d < d
    ensures (n / d) * p1 >= 0 && (n / d) * q1 >= 0
  {
  }

  lemma {:induction false} StepIdentities(p0: int, q0: int, p1: int, q1: int, n: int, d: int, a: int)
    ensures p1 * n + p0 * d == (p0 + a * p1) * d + p1 * (n - a * d)
    ensures q1 * n + q0 * d == (q0 + a * q1) * d + q1 * (n - a * d)
    ensures Det(p1, q1, p0 + a * p1, q0 + a * q1) == -Det(p0, q0, p1, q1)
    ensures q1 == 0 ==> q0 + a * q1 == q0
    ensures q1 == 1 ==> q0 + a * q1 == q0 + a
  {
  }

  /** The semiconvergent (p0 + k p1) / (q0 + k q1) and p1 / q1 have cross
      products differing by one as well. */
  lemma {:induction false} SemiconvergentDet(p0: int, q0: int, p1: int, q1: int, k: int)
    ensures (p0 + k * p1) * q1 - p1 * (q0 + k * q1) == -Det(p0, q0, p1, q1)
  {
  }

  /** If the remainder reached 0, d would divide both N and D. */
  lemma {:induction false} RemainderPositive(N: nat, D: nat, maxDen: nat, p2: int, q2: int, p1: int, q1: int, d: int, e: int)
    requires Coprime(N, D) && D > maxDen && d >= 1 && q2 <= maxDen && e >= 0
    requires N == p2 * d + p1 * e && D == q2 * d + q1 * e
    ensures e >= 1
  {
    if e == 0 {
      CommonFactor(N, D, d, p2, q2);
      assert false;
    }
  }

  /** One turn of the loop keeps the state's relation to N / D; the remainder
      cannot reach 0 while the denominators stay within maxDen < D, because
      N / D is in lowest terms. */
  lemma {:induction false} ExpandStep(N: nat, D: nat, maxDen: nat, p0: int, q0: int, p1: int, q1: int, n: int, d: int)
    requires Expanding(N, D, maxDen, p0, q0, p1, q1, n, d)
    requires q0 + (n / d) * q1 <= maxDen
    ensures var a := n / d;
      Expanding(N, D, maxDen, p1, q1, p0 + a * p1, q0 + a * q1, d, n - a * d)
  {
    QuotientFacts(n, d, p1, q1);
    var a := n / d;
    StepIdentities(p0, q0, p1, q1, n, d, a);
    RemainderPositive(N, D, maxDen, p0 + a * p1, q0 + a * q1, p1, q1, d, n - a * d);
  }

  /** Where the loop stops, q1 >= 1 and the semiconvergent with the largest k
      whose denominator stays within maxDen is a fraction with denominator in
      1 .. maxDen. */
  lemma {:induction false} BreakFacts(maxDen: int, q0: int, q1: int, p1: int, a: int)
    requires 0 <= q0 <= maxDen && maxDen >= 1 && q1 >= 0 && p1 >= 0 && a >= 0 && (q0 == 0 ==> q1 == 1)
    requires q0 + a * q1 > maxDen
    ensures q1 >= 1
    ensures (maxDen - q0) / q1 >= 0 && ((maxDen - q0) / q1) * p1 >= 0
    ensures 1 <= q0 + ((maxDen - q0) / q1) * q1 <= maxDen
  {
    TimesZero(a, q1);
    var k := (maxDen - q0) / q1;
    assert k * q1 <= maxDen - q0;
    NonNegativeProduct(k, p1);
    NonNegativeProduct(k, q1);
    if q0 == 0 {
      assert k == maxDen && k * q1 == k * 1;
    }
  }

  /** The loop of limit_denominator from the given state: expand n / d while the
      next convergent's denominator stays within maxDen, then return whichever
      of p1/q1 and the semiconvergent (p0 + k p1) / (q0 + k q1) with the largest
      admissible k is closer to N / D, the first on a tie. Distances are
      compared cross-multiplied by the positive denominators. */
  function Expand(N: nat, D: nat, maxDen: nat, p0: int, q0: int, p1: int, q1: int, n: int, d: int): (f: (nat, nat))
    requires Expanding(N, D, maxDen, p0, q0, p1, q1, n, d)
    ensures 1 <= f.1 <= maxDen && Coprime(f.0, f.1)
    decreases d
  {
    QuotientFacts(n, d, p1, q1);
    var a := n / d;
    var q2 := q0 + a * q1;
    if q2 > maxDen then
      BreakFacts(maxDen, q0, q1, p1, a);
      var k := (maxDen - q0) / q1;
      var b0, b1 := p0 + k * p1, q0 + k * q1;
      if Dist(p1, q1, N, D) * b1 <= Dist(b0, b1, N, D) * q1 then
        CoprimeByDeterminant(p1, q1, p0, q0);
        (p1, q1)
      else
        SemiconvergentDet(p0, q0, p1, q1, k);
        CoprimeByDeterminant(b0, b1, p1, q1);
        (b0, b1)
    else
      ExpandStep(N, D, maxDen, p0, q0, p1, q1, n, d);
      Expand(N, D, maxDen, p1, q1, p0 + a * p1, q2, d, n - a * d)
  }

  /** The loop starts from the convergents 0/1 and 1/0 with remainder N / D. */
  lemma {:induction false} ExpandStart(N: nat, D: nat, maxDen: nat)
    requires D > maxDen >= 1 && Coprime(N, D)
    ensures Expanding(N, D, maxDen, 0, 1, 1, 0, N, D)
  {
    assert N == 1 * N + 0 * D && D == 0 * N + 1 * D;
  }

  /** Fraction(N, D).limit_denominator(maxDen) for N / D in lowest terms: the
      fraction itself when D is within the bound, otherwise the result of the
      continued-fraction loop. Either way a fraction in lowest terms whose
      denominator is between 1 and maxDen. */
  function LimitDenominator(N: nat, D: nat, maxDen: nat): (f: (nat, nat))
    requires D >= 1 && maxDen >= 1 && Coprime(N, D)
    ensures 1 <= f.1 <= maxDen && Coprime(f.0, f.1)
    ensures D <= maxDen ==> f == (N, D)
  {
    if D <= maxDen then (N, D)
    else
      ExpandStart(N, D, maxDen);
      Expand(N, D, maxDen, 0, 1, 1, 0, N, D)
  }
  // ---------------------------------------------------------------- the closest fraction

  /** Two fractions whose cross products differ by one are a basis: every p / q
      is alpha (P1 / Q1) + beta (B0 / B1) componentwise. */
  lemma {:induction false} Basis(P1: int, Q1: int, B0: int, B1: int, p: int, q: int)
    requires P1 * B1 - B0 * Q1 == 1 || P1 * B1 - B0 * Q1 == -1
    ensures var e := P1 * B1 - B0 * Q1;
      var alpha, beta := e * (p * B1 - q * B0), e * (q * P1 - p * Q1);
      p == alpha * P1 + beta * B0 && q == alpha * Q1 + beta * B1
  {
    var e := P1 * B1 - B0 * Q1;
    assert e * e == 1;
    var alpha, beta := e * (p * B1 - q * B0), e * (q * P1 - p * Q1);
    assert alpha * P1 + beta * B0 == e * (p * (P1 * B1 - B0 * Q1));
    assert alpha * Q1 + beta * B1 == e * (q * (P1 * B1 - B0 * Q1));
  }

  /** How far p / q = alpha (P1 / Q1) + beta (B0 / B1) is from
      N / D = (P1 n + B0 d) / (Q1 n + B1 d), cross-multiplied. */
  lemma {:induction false} Offsets(N: int, D: int, P1: int, Q1: int, B0: int, B1: int, n: int, d: int, alpha: int, beta: int)
    requires N == P1 * n + B0 * d && D == Q1 * n + B1 * d
    ensures var e := P1 * B1 - B0 * Q1;
      P1 * D - N * Q1 == d * e && B0 * D - N * B1 == -(n * e) &&
      (alpha * P1 + beta * B0) * D - N * (alpha * Q1 + beta * B1) == e * (alpha * d - beta * n)
  {
    var e := P1 * B1 - B0 * Q1;
    assert P1 * D - N * Q1 == d * e;
    assert B0 * D - N * B1 == -(n * e);
    assert (alpha * P1 + beta * B0) * D - N * (alpha * Q1 + beta * B1) == alpha * (P1 * D - N * Q1) + beta * (B0 * D - N * B1);
  }

  lemma {:induction false} UnitAbs(e: int, x: int)
    requires e == 1 || e == -1
    ensures Abs(e * x) == Abs(x)
  {
  }

  lemma {:induction false} ProductAtLeast(x: int, y: int)
    requires x >= 1 && y >= 1
    ensures x * y >= y
  {
    assert x * y == (x - 1) * y + y;
    NonNegativeProduct(x - 1, y);
  }

  lemma {:induction false} ProductAtMost(x: int, y: int)
    requires x <= 0 && y >= 0
    ensures x * y <= 0
  {
    NonNegativeProduct(-x, y);
  }

  /** One side of NeighbourBound in coordinates: if q = alpha Q1 + beta B1 with
      alpha >= 1 and beta <= 0, then p / q is no closer than P1 / Q1, whose
      distance to N / D is d against alpha d - beta n. */
  lemma {:induction false} SideBound(d: int, n: int, alpha: int, beta: int, Q1: int, B1: int, q: int)
    requires d >= 1 && n >= 1 && Q1 >= 1 && B1 >= 1 && alpha >= 1 && beta <= 0
    requires q == alpha * Q1 + beta * B1
    ensures alpha * d - beta * n >= 0 && d * q <= (alpha * d - beta * n) * Q1
  {
    ProductAtMost(beta, d * B1 + n * Q1);
    ProductAtMost(beta, n);
    NonNegativeProduct(alpha, d);
    assert d * q == alpha * d * Q1 + beta * d * B1;
    assert (alpha * d - beta * n) * Q1 == alpha * d * Q1 - beta * n * Q1;
    assert beta * (d * B1 + n * Q1) == beta * d * B1 + beta * n * Q1;
  }

  /** In coordinates alpha, beta with 1 <= q < Q1 + B1, the two coordinates
      have opposite signs, so one of SideBound's two cases applies. */
  lemma {:induction false} Coordinates(d: int, n: int, alpha: int, beta: int, Q1: int, B1: int, q: int)
    requires d >= 1 && n >= 1 && Q1 >= 1 && B1 >= 1
    requires q == alpha * Q1 + beta * B1 && 1 <= q < Q1 + B1
    ensures d * q <= Abs(alpha * d - beta * n) * Q1 || n * q <= Abs(alpha * d - beta * n) * B1
  {
    if alpha >= 1 && beta >= 1 {
      ProductAtLeast(alpha, Q1);
      ProductAtLeast(beta, B1);
      assert false;
    } else if alpha <= 0 && beta <= 0 {
      ProductAtMost(alpha, Q1);
      ProductAtMost(beta, B1);
      assert false;
    } else if alpha >= 1 {
      SideBound(d, n, alpha, beta, Q1, B1, q);
    } else {
      SideBound(n, d, beta, alpha, B1, Q1, q);
      assert beta * n - alpha * d == -(alpha * d - beta * n);
    }
  }

  /** N / D lies strictly between the neighbours P1 / Q1 and B0 / B1, as the
      combination (P1 n + B0 d) / (Q1 n + B1 d) with n, d >= 1. A fraction p / q
      with q < Q1 + B1 lies outside that interval, so it is no closer to N / D
      than the neighbour on its side. */
  lemma {:induction false} NeighbourBound(N: int, D: int, P1: int, Q1: int, B0: int, B1: int, n: int, d: int, p: int, q: int)
    requires Q1 >= 1 && B1 >= 1 && n >= 1 && d >= 1
    requires N == P1 * n + B0 * d && D == Q1 * n + B1 * d
    requires P1 * B1 - B0 * Q1 == 1 || P1 * B1 - B0 * Q1 == -1
    requires 1 <= q < Q1 + B1
    ensures Dist(P1, Q1, N, D) * q <= Dist(p, q, N, D) * Q1 || Dist(B0, B1, N, D) * q <= Dist(p, q, N, D) * B1
  {
    var e := P1 * B1 - B0 * Q1;
    var alpha, beta := e * (p * B1 - q * B0), e * (q * P1 - p * Q1);
    Basis(P1, Q1, B0, B1, p, q);
    Offsets(N, D, P1, Q1, B0, B1, n, d, alpha, beta);
    UnitAbs(e, d);
    UnitAbs(e, -n);
    UnitAbs(e, alpha * d - beta * n);
    Coordinates(d, n, alpha, beta, Q1, B1, q);
  }

  /** Closeness compared by cross products is transitive. */
  lemma {:induction false} CloserChain(x1: nat, y1: nat, x2: nat, y2: nat, x3: nat, y3: nat)
    requires y2 >= 1 && x1 * y2 <= x2 * y1 && x2 * y3 <= x3 * y2
    ensures x1 * y3 <= x3 * y1
  {
    assert (x1 * y2) * y3 <= (x2 * y1) * y3;
    assert (x2 * y3) * y1 <= (x3 * y2) * y1;
    assert (x1 * y3 - x3 * y1) * y2 <= 0;
    if x1 * y3 > x3 * y1 {
      ProductAtLeast(x1 * y3 - x3 * y1, y2);
    }
  }

  /** The largest admissible k lies below the next partial quotient a, and one
      more step of k would pass maxDen. */
  lemma {:induction false} BreakIndex(maxDen: int, q0: int, q1: int, a: int, k: int)
    requires q1 >= 1 && q0 + a * q1 > maxDen && k == (maxDen - q0) / q1
    ensures k < a && q0 + (k + 1) * q1 > maxDen
  {
    assert maxDen - q0 == k * q1 + (maxDen - q0) % q1;
    if a <= k {
      assert (k - a) * q1 >= 0 by { NonNegativeProduct(k - a, q1); }
    }
  }

  lemma {:induction false} BreakIdentities(N: int, D: int, p0: int, q0: int, p1: int, q1: int, n: int, d: int, k: int)
    requires N == p1 * n + p0 * d && D == q1 * n + q0 * d
    ensures N == p1 * (n - k * d) + (p0 + k * p1) * d && D == q1 * (n - k * d) + (q0 + k * q1) * d
    ensures p1 * (q0 + k * q1) - (p0 + k * p1) * q1 == Det(p0, q0, p1, q1)
  {
  }

  /** Where the loop stops, N / D is the combination of p1 / q1 and the
      semiconvergent with the largest admissible k, with positive weights, and
      every denominator within maxDen is below the sum of theirs. */
  lemma {:induction false} BreakNeighbours(N: nat, D: nat, maxDen: nat, p0: int, q0: int, p1: int, q1: int, n: int, d: int, q: int)
    requires Expanding(N, D, maxDen, p0, q0, p1, q1, n, d) && q0 + (n / d) * q1 > maxDen && 1 <= q <= maxDen
    ensures q1 >= 1
    ensures var k := (maxDen - q0) / q1;
      var b0, b1 := p0 + k * p1, q0 + k * q1;
      b1 >= 1 && n - k * d >= 1 &&
      N == p1 * (n - k * d) + b0 * d && D == q1 * (n - k * d) + b1 * d &&
      (p1 * b1 - b0 * q1 == 1 || p1 * b1 - b0 * q1 == -1) && q < q1 + b1
  {
    QuotientFacts(n, d, p1, q1);
    var a := n / d;
    BreakFacts(maxDen, q0, q1, p1, a);
    var k := (maxDen - q0) / q1;
    BreakIndex(maxDen, q0, q1, a, k);
    ProductAtLeast(a - k, d);
    assert n - k * d == (a - k) * d + (n - a * d);
    BreakIdentities(N, D, p0, q0, p1, q1, n, d, k);
  }

  /** The loop's answer is at least as close to N / D as any fraction p / q with
      1 <= q <= maxDen. */
  lemma {:induction false} ExpandClosest(N: nat, D: nat, maxDen: nat, p0: int, q0: int, p1: int, q1: int, n: int, d: int, p: int, q: nat)
    requires Expanding(N, D, maxDen, p0, q0, p1, q1, n, d) && 1 <= q <= maxDen
    ensures var f := Expand(N, D, maxDen, p0, q0, p1, q1, n, d);
      Dist(f.0, f.1, N, D) * q <= Dist(p, q, N, D) * f.1
    decreases d
  {
    QuotientFacts(n, d, p1, q1);
    var a := n / d;
    if q0 + a * q1 > maxDen {
      BreakNeighbours(N, D, maxDen, p0, q0, p1, q1, n, d, q);
      var k := (maxDen - q0) / q1;
      var b0, b1 := p0 + k * p1, q0 + k * q1;
      NeighbourBound(N, D, p1, q1, b0, b1, n - k * d, d, p, q);
      var f := Expand(N, D, maxDen, p0, q0, p1, q1, n, d);
      var x1, x2, x3 := Dist(p1, q1, N, D), Dist(b0, b1, N, D), Dist(p, q, N, D);
      if x1 * b1 <= x2 * q1 {
        assert f == (p1, q1);
        if x2 * q <= x3 * b1 {
          CloserChain(x1, q1, x2, b1, x3, q);
        }
      } else {
        assert f == (b0, b1);
        if x1 * q <= x3 * q1 {
          CloserChain(x2, b1, x1, q1, x3, q);
        }
      }
    } else {
      ExpandStep(N, D, maxDen, p0, q0, p1, q1, n, d);
      ExpandClosest(N, D, maxDen, p1, q1, p0 + a * p1, q0 + a * q1, d, n - a * d, p, q);
    }
  }

  /** limit_denominator returns the closest fraction to N / D among those with
      denominator between 1 and maxDen, compared cross-multiplied:
      |f - N/D| <= |p/q - N/D|. */
  lemma {:induction false} LimitDenominatorClosest(N: nat, D: nat, maxDen: nat, p: int, q: nat)
    requires D >= 1 && maxDen >= 1 && Coprime(N, D) && 1 <= q <= maxDen
    ensures var f := LimitDenominator(N, D, maxDen);
      Dist(f.0, f.1, N, D) * q <= Dist(p, q, N, D) * f.1
  {
    if D > maxDen {
      ExpandStart(N, D, maxDen);
      ExpandClosest(N, D, maxDen, 0, 1, 1, 0, N, D, p, q);
    } else {
      assert Dist(N, D, N, D) == 0;
    }
  }
}

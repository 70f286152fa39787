/** Exact rates: cross-multiplied integers, never floats. */
module Rates {
  import opened Results

  /** `rate_at_most`: whether a/b <= c/d, refused when a denominator is not positive. */
  function RateAtMost(a: int, b: int, c: int, d: int): Option<bool> {
    if b <= 0 || d <= 0 then None else Some(a * d <= c * b)
  }

  /** A ceiling in lowest terms. */
  datatype Rate = Rate(numerator: nat, denominator: nat)

  datatype RateError = NoDenominator | Negative | AboveOne

  function Gcd(a: nat, b: nat): (g: nat)
    ensures a > 0 || b > 0 ==> g > 0
    decreases b
  {
    if b == 0 then a else Gcd(b, a % b)
  }

  function Reduce(n: nat, d: nat): Rate
    requires d > 0
  {
    Rate(n / Gcd(n, d), d / Gcd(n, d))
  }

  /** The constructor of `ExactRate`. */
  function ExactRate(n: int, d: int): Result<Rate, RateError> {
    if d <= 0 then Err(NoDenominator)
    else if n < 0 then Err(Negative)
    else if n > d then Err(AboveOne)
    else Ok(Reduce(n, d))
  }

  predicate Permits(rate: Rate, matches: nat, population: nat)
  {
    RateAtMost(matches, population, rate.numerator, rate.denominator) == Some(true)
  }

  /** Cross-multiplication is the comparison of the quotients themselves. */
  lemma {:induction false} AtMostIsExact(a: int, b: int, c: int, d: int)
    requires b > 0 && d > 0
    ensures RateAtMost(a, b, c, d) == Some(a as real / b as real <= c as real / d as real)
  {
  }

  /** A ceiling permits exactly the observed rates that do not exceed it, an equal one included. */
  lemma {:induction false} PermitsIsExact(rate: Rate, matches: nat, population: nat)
    requires rate.denominator > 0 && population > 0
    ensures Permits(rate, matches, population) <==>
      matches as real / population as real <= rate.numerator as real / rate.denominator as real
  {
    AtMostIsExact(matches, population, rate.numerator, rate.denominator);
  }

  lemma {:induction false} Positive(k: nat, y: nat)
    ensures k * y >= 0
  {
  }

  lemma {:induction false} OneMore(a: int, b: int, y: nat)
    requires a < b
    ensures a * y + y <= b * y
  {
    var k: nat := b - a - 1;
    Positive(k, y);
    assert b * y == (a + 1 + k) * y == a * y + y + k * y;
  }

  lemma {:induction false} DivModUnique(x: nat, y: nat, q: nat, r: nat)
    requires r < y && x == q * y + r
    ensures x / y == q && x % y == r
  {
    QuotientUnique(y, x / y, x % y, q, r);
  }

  lemma {:induction false} QuotientUnique(y: nat, p: int, s: int, q: int, r: int)
    requires 0 <= r < y && 0 <= s < y && p * y + s == q * y + r
    ensures p == q && s == r
  {
    if p < q { OneMore(p, q, y); } else if q < p { OneMore(q, p, y); }
  }

  lemma {:induction false} Distribute(k: int, q: int, b: int, r: int)
    ensures k * (q * b + r) == q * (k * b) + k * r
  {
  }

  lemma {:induction false} LessScaled(k: nat, r: nat, b: nat)
    requires k > 0 && r < b
    ensures k * r < k * b
  {
    assert k * (b - r) > 0;
  }

  lemma {:induction false} ScaledDivision(k: nat, a: nat, b: nat)
    requires k > 0 && b > 0
    ensures k * b > 0 && (k * a) % (k * b) == k * (a % b)
  {
    var q, r := a / b, a % b;
    LessScaled(k, r, b);
    Distribute(k, q, b, r);
    DivModUnique(k * a, k * b, q, k * r);
  }

  lemma {:induction false} GcdScale(k: nat, a: nat, b: nat)
    requires k > 0
    ensures Gcd(k * a, k * b) == k * Gcd(a, b)
    decreases b
  {
    if b > 0 {
      ScaledDivision(k, a, b);
      GcdScale(k, b, a % b);
    }
  }

  /** The greatest common divisor divides both; the quotients are returned. */
  lemma {:induction false} GcdDivides(a: nat, b: nat) returns (p: nat, q: nat)
    ensures a == p * Gcd(a, b) && b == q * Gcd(a, b)
    decreases b
  {
    if b == 0 {
      p, q := 1, 0;
    } else {
      var m, n := GcdDivides(b, a % b);
      p, q := (a / b) * m + n, m;
      Regroup(a / b, m, n, Gcd(a, b));
    }
  }

  lemma {:induction false} Regroup(k: int, m: int, n: int, g: int)
    ensures k * (m * g) + n * g == (k * m + n) * g
  {
  }

  lemma {:induction false} ReduceExact(n: nat, d: nat)
    requires d > 0
    ensures var r := Reduce(n, d); var g := Gcd(n, d);
      n == r.numerator * g && d == r.denominator * g && r.denominator > 0
  {
    var p, q := GcdDivides(n, d);
    var g := Gcd(n, d);
    DivModUnique(n, g, p, 0);
    DivModUnique(d, g, q, 0);
  }

  /** Reducing the ceiling changes no decision. */
  lemma {:induction false} ReductionIsInvisible(matches: nat, population: nat, n: nat, d: nat)
    requires d > 0
    ensures Permits(Reduce(n, d), matches, population) <==> Permits(Rate(n, d), matches, population)
  {
    ReduceExact(n, d);
    var r, g := Reduce(n, d), Gcd(n, d);
    CommonFactor(matches, r.denominator, r.numerator, population, g);
    SameOrder(matches * r.denominator, r.numerator * population, g);
  }

  lemma {:induction false} CommonFactor(a: int, b: int, c: int, d: int, g: int)
    ensures a * (b * g) == (a * b) * g && (c * g) * d == (c * d) * g
  {
  }

  lemma {:induction false} SameOrder(x: int, y: int, g: nat)
    requires g > 0
    ensures x <= y <==> x * g <= y * g
  {
    if y < x {
      OneMore(y, x, g);
    } else if x < y {
      OneMore(x, y, g);
    }
  }

  lemma {:induction false} SameQuotient(a: int, b: int, g: int)
    requires b != 0 && g != 0
    ensures b * g != 0 && (a * g) as real / (b * g) as real == a as real / b as real
  {
    var x, y, z := a as real, b as real, g as real;
    assert (a * g) as real == x * z && (b * g) as real == y * z;
    assert (x * z) / (y * z) == x / y;
  }

  lemma {:induction false} DividesOne(k: nat, x: nat)
    requires k * x == 1
    ensures k == 1
  {
  }

  lemma {:induction false} CoprimeParts(n: nat, d: nat, g: nat, x: nat, y: nat)
    requires g > 0 && n == x * g && d == y * g && Gcd(n, d) == g
    ensures Gcd(x, y) == 1
  {
    assert x * g == g * x && y * g == g * y;
    GcdScale(g, x, y);
    SameFactor(Gcd(x, y), 1, g);
  }

  /** Nothing is left to cancel. */
  lemma {:induction false} ReducedIsCoprime(n: nat, d: nat)
    requires d > 0
    ensures Gcd(Reduce(n, d).numerator, Reduce(n, d).denominator) == 1
  {
    ReduceExact(n, d);
    CoprimeParts(n, d, Gcd(n, d), Reduce(n, d).numerator, Reduce(n, d).denominator);
  }

  /** Only one divides both parts of a reduced rate. */
  lemma {:induction false} LowestTerms(n: nat, d: nat, k: nat, x: nat, y: nat)
    requires d > 0 && Reduce(n, d) == Rate(k * x, k * y)
    ensures k == 1
  {
    ReduceExact(n, d);
    ReducedIsCoprime(n, d);
    if k > 0 {
      GcdScale(k, x, y);
      DividesOne(k, Gcd(x, y));
    }
  }

  /**
   `ExactRate` takes exactly the fractions between nought and one, and keeps their value; no number but
   one divides both parts of what it makes.
   */
  lemma {:induction false} ExactRateExactly(n: int, d: int)
    ensures ExactRate(n, d).Ok? <==> d > 0 && 0.0 <= n as real / d as real <= 1.0
    ensures ExactRate(n, d).Ok? ==> var r := ExactRate(n, d).value;
      && r.denominator > 0 && r.numerator as real / r.denominator as real == n as real / d as real
      && forall k: nat, x: nat, y: nat :: r == Rate(k * x, k * y) ==> k == 1
  {
    if ExactRate(n, d).Ok? {
      ReduceExact(n, d);
      var r := Reduce(n, d);
      SameQuotient(r.numerator, r.denominator, Gcd(n, d));
      forall k: nat, x: nat, y: nat | r == Rate(k * x, k * y) ensures k == 1 {
        LowestTerms(n, d, k, x, y);
      }
    }
    if d > 0 {
      AtMostIsExact(0, 1, n, d);
      AtMostIsExact(n, d, 1, 1);
    }
  }

  /** Two spellings have one canonical form exactly when they are one rate. */
  lemma {:induction false} CanonicalForm(n: nat, d: nat, m: nat, e: nat)
    requires d > 0 && e > 0
    ensures Reduce(n, d) == Reduce(m, e) <==> n * e == m * d
  {
    ReduceExact(n, d);
    ReduceExact(m, e);
    var p, q := Reduce(n, d), Reduce(m, e);
    var g, h := Gcd(n, d), Gcd(m, e);
    CrossProduct(p.numerator, g, q.denominator, h);
    CrossProduct(q.numerator, h, p.denominator, g);
    if n * e == m * d {
      GcdScale(e, n, d);
      GcdScale(d, m, e);
      assert e * n == d * m && e * d == d * e;
      assert e * g == d * h;
      SameDenominator(p.denominator, q.denominator, g, h);
      SameFactor(p.numerator * q.denominator, q.numerator * p.denominator, g * h);
      SameFactor(p.numerator, q.numerator, p.denominator);
    }
  }

  lemma {:induction false} CrossProduct(a: int, g: nat, b: int, h: nat)
    ensures (a * g) * (b * h) == (a * b) * (g * h)
    ensures g * h == h * g
  {
  }

  lemma {:induction false} SameDenominator(x: nat, y: nat, g: nat, h: nat)
    requires g > 0 && h > 0 && (y * h) * g == (x * g) * h
    ensures x == y && g * h > 0
  {
  }

  lemma {:induction false} SameFactor(x: int, y: int, k: int)
    requires k != 0
    ensures x * k == y * k ==> x == y
  {
  }
}

/** Divisibility, primes, and Fermat's little theorem: what the prime searches and the primality test
    of the row layout rest on. */
module NumberTheory {

  predicate Divides(d: int, n: int)
    requires d != 0
  {
    n % d == 0
  }

  ghost predicate IsPrime(n: int) {
    n >= 2 && forall d :: 2 <= d < n ==> !Divides(d, n)
  }

  // ---- Divisibility ------------------------------------------------------------------------

  lemma SmallMultiple(k: int, c: int)
    requires c >= 1
    ensures -c < k * c < c ==> k == 0
  {
    if k >= 1 {
      assert (k - 1) * c >= 0;
    } else if k <= -1 {
      assert (k + 1) * c <= 0;
    }
  }

  /** Quotient and remainder are unique. */
  lemma DivModUnique(n: int, d: int, q: int, r: int)
    requires d >= 1 && n == d * q + r && 0 <= r < d
    ensures n / d == q && n % d == r
  {
    assert (q - n / d) * d == n % d - r;
    SmallMultiple(q - n / d, d);
  }

  lemma DividesIntro(d: int, n: int, q: int)
    requires d >= 1 && n == d * q
    ensures Divides(d, n)
  {
    DivModUnique(n, d, q, 0);
  }

  lemma Quotient(d: int, n: int) returns (q: int)
    requires d >= 1 && Divides(d, n)
    ensures n == d * q
  {
    q := n / d;
  }

  lemma DividesSum(d: int, m: int, n: int)
    requires d >= 1 && Divides(d, m) && Divides(d, n)
    ensures Divides(d, m + n) && Divides(d, m - n)
  {
    var a := Quotient(d, m);
    var b := Quotient(d, n);
    assert d * (a + b) == m + n && d * (a - b) == m - n;
    DividesIntro(d, m + n, a + b);
    DividesIntro(d, m - n, a - b);
  }

  lemma DividesMultiple(d: int, m: int, k: int)
    requires d >= 1 && Divides(d, m)
    ensures Divides(d, m * k)
  {
    var a := Quotient(d, m);
    assert d * (a * k) == (d * a) * k;
    DividesIntro(d, m * k, a * k);
  }

  lemma DividesTransitive(c: int, d: int, n: int)
    requires c >= 1 && d >= 1 && Divides(c, d) && Divides(d, n)
    ensures Divides(c, n)
  {
    var q := Quotient(d, n);
    DividesMultiple(c, d, q);
  }

  lemma DivisorBound(d: int, n: int)
    requires d >= 1 && n >= 1 && Divides(d, n)
    ensures d <= n
  {
    var q := Quotient(d, n);
    assert q <= 0 ==> d * q <= 0;
    if q >= 1 {
      assert (q - 1) * d >= 0;
    }
  }

  /** m and n leave the same remainder exactly when d divides their difference. */
  lemma SameRemainder(d: int, m: int, n: int)
    requires d >= 1
    ensures Divides(d, m - n) <==> m % d == n % d
  {
    if Divides(d, m - n) {
      var q := Quotient(d, m - n);
      assert m == d * (q + n / d) + n % d;
      DivModUnique(m, d, q + n / d, n % d);
    } else if m % d == n % d {
      assert m - n == d * (m / d - n / d);
      DividesIntro(d, m - n, m / d - n / d);
      assert false;
    }
  }

  // ---- Euclid's lemma ----------------------------------------------------------------------

  lemma {:induction false} EuclidSmall(p: int, a: int, b: int)
    requires IsPrime(p) && 0 < a < p && Divides(p, a * b)
    ensures Divides(p, b)
    decreases a
  {
    if a > 1 {
      var q, r := p / a, p % a;
      assert !Divides(a, p);
      assert r * b == p * b - (a * b) * q;
      DividesIntro(p, p * b, b);
      DividesMultiple(p, a * b, q);
      DividesSum(p, p * b, (a * b) * q);
      EuclidSmall(p, r, b);
    }
  }

  lemma EuclidLemma(p: int, a: int, b: int)
    requires IsPrime(p) && Divides(p, a * b) && !Divides(p, a)
    ensures Divides(p, b)
  {
    var q, r := a / p, a % p;
    assert r * b == a * b - p * (q * b);
    DividesIntro(p, p * (q * b), q * b);
    DividesSum(p, a * b, p * (q * b));
    EuclidSmall(p, r, b);
  }

  // ---- Binomials ---------------------------------------------------------------------------

  function Pow(b: int, e: nat): int {
    if e == 0 then 1 else b * Pow(b, e - 1)
  }

  function Choose(n: nat, k: nat): nat {
    if k == 0 then 1
    else if n == 0 then 0
    else Choose(n - 1, k - 1) + Choose(n - 1, k)
  }

  lemma {:induction false} Absorption(n: nat, k: nat)
    requires n >= 1 && k >= 1
    ensures k * Choose(n, k) == n * Choose(n - 1, k - 1)
  {
    if n == 1 {
      if k >= 2 {
        assert Choose(0, k - 1) == 0 && Choose(0, k) == 0;
      }
    } else {
      var u, v := Choose(n - 1, k - 1), Choose(n - 1, k);
      Absorption(n - 1, k);
      assert k * v == (n - 1) * Choose(n - 2, k - 1);
      if k >= 2 {
        Absorption(n - 1, k - 1);
        assert (k - 1) * u == (n - 1) * Choose(n - 2, k - 2);
        assert u == Choose(n - 2, k - 2) + Choose(n - 2, k - 1);
        AbsorbStep(n, k, u, v, Choose(n - 2, k - 2), Choose(n - 2, k - 1));
      } else {
        assert u == 1 && Choose(n - 2, 0) == 1;
      }
    }
  }

  lemma AbsorbStep(n: int, k: int, u: int, v: int, x: int, y: int)
    requires k * v == (n - 1) * y && (k - 1) * u == (n - 1) * x && u == x + y
    ensures k * (u + v) == n * u
  {
    assert k * (u + v) == (k - 1) * u + u + k * v;
    assert (n - 1) * x + (n - 1) * y == (n - 1) * (x + y);
  }

  lemma {:induction false} ChooseBeyond(n: nat, k: nat)
    requires k > n
    ensures Choose(n, k) == 0
  {
    if n > 0 {
      ChooseBeyond(n - 1, k - 1);
      ChooseBeyond(n - 1, k);
    }
  }

  lemma {:induction false} ChooseSelf(n: nat)
    ensures Choose(n, n) == 1
  {
    if n > 0 {
      ChooseSelf(n - 1);
      ChooseBeyond(n - 1, n);
    }
  }

  /** The terms 0..m of the expansion of (a + 1) to the n-th. */
  function Expansion(n: nat, a: int, m: nat): int {
    Choose(n, m) * Pow(a, m) + if m == 0 then 0 else Expansion(n, a, m - 1)
  }

  lemma {:induction false} ExpansionPascal(n: nat, a: int, m: nat)
    requires n >= 1 && m >= 1
    ensures Expansion(n, a, m) == Expansion(n - 1, a, m) + a * Expansion(n - 1, a, m - 1)
  {
    var c, d, w := Choose(n - 1, m - 1), Choose(n - 1, m), Pow(a, m - 1);
    var e := if m == 1 then 0 else Expansion(n - 1, a, m - 2);
    assert Expansion(n - 1, a, m - 1) == c * w + e;
    assert Expansion(n, a, m) == (c + d) * (a * w) + Expansion(n, a, m - 1);
    if m > 1 {
      ExpansionPascal(n, a, m - 1);
    } else {
      assert Expansion(n, a, 0) == 1 && Expansion(n - 1, a, 0) == 1;
    }
    PascalStep(c, d, a, w, e);
  }

  lemma PascalStep(c: int, d: int, a: int, w: int, e: int)
    ensures (c + d) * (a * w) + a * e == d * (a * w) + a * (c * w + e)
  {
  }

  lemma {:induction false} BinomialTheorem(n: nat, a: int)
    ensures Expansion(n, a, n) == Pow(a + 1, n)
  {
    if n > 0 {
      BinomialTheorem(n - 1, a);
      ExpansionPascal(n, a, n);
      ChooseBeyond(n - 1, n);
      var e := Expansion(n - 1, a, n - 1);
      assert Expansion(n - 1, a, n) == e;
      assert e + a * e == (a + 1) * e;
    } else {
      assert Choose(0, 0) == 1 && Pow(a, 0) == 1;
    }
  }

  lemma PrimeDividesChoose(p: int, k: int)
    requires IsPrime(p) && 0 < k < p
    ensures Divides(p, Choose(p, k))
  {
    Absorption(p, k);
    DividesIntro(p, k * Choose(p, k), Choose(p - 1, k - 1));
    EuclidSmall(p, k, Choose(p, k));
  }

  lemma {:induction false} InnerTermsVanish(p: int, a: int, m: int)
    requires IsPrime(p) && 0 <= m < p
    ensures Divides(p, Expansion(p, a, m) - 1)
  {
    if m > 0 {
      InnerTermsVanish(p, a, m - 1);
      PrimeDividesChoose(p, m);
      DividesMultiple(p, Choose(p, m), Pow(a, m));
      DividesSum(p, Expansion(p, a, m - 1) - 1, Choose(p, m) * Pow(a, m));
    } else {
      assert Expansion(p, a, 0) == 1;
    }
  }

  // ---- Fermat's little theorem -------------------------------------------------------------

  lemma {:induction false} FermatPower(p: int, a: nat)
    requires IsPrime(p)
    ensures Divides(p, Pow(a, p) - a)
  {
    hide Pow, Divides;
    if a == 0 {
      ZeroPower(p);
      DividesIntro(p, Pow(a, p) - a, 0);
    } else {
      FermatPower(p, a - 1);
      FermatStep(p, a - 1);
      var w := Pow(a - 1, p);
      DividesSum(p, w - (a - 1), Pow(a, p) - w - 1);
      assert Pow(a, p) - a == (w - (a - 1)) + (Pow(a, p) - w - 1);
    }
  }

  lemma ZeroPower(n: nat)
    requires n >= 1
    ensures Pow(0, n) == 0
  {
  }

  lemma FermatStep(p: int, a: nat)
    requires IsPrime(p)
    ensures Divides(p, Pow(a + 1, p) - Pow(a, p) - 1)
  {
    hide *;
    assert p >= 2 by { PrimeAtLeastTwo(p); }
    LastTerm(p, a);
    BinomialTheorem(p, a);
    InnerTermsVanish(p, a, p - 1);
    assert Expansion(p, a, p - 1) - 1 == Pow(a + 1, p) - Pow(a, p) - 1;
  }

  lemma PrimeAtLeastTwo(p: int)
    requires IsPrime(p)
    ensures p >= 2
  {
  }

  lemma LastTerm(n: nat, a: int)
    requires n >= 1
    ensures Expansion(n, a, n) == Pow(a, n) + Expansion(n, a, n - 1)
  {
    hide Pow;
    ChooseSelf(n);
    hide Choose;
    assert Expansion(n, a, n) == Choose(n, n) * Pow(a, n) + Expansion(n, a, n - 1);
  }

  lemma FermatLittle(p: int, a: nat)
    requires IsPrime(p) && !Divides(p, a)
    ensures Pow(a, p - 1) % p == 1
  {
    FermatPower(p, a);
    var w := Pow(a, p - 1);
    assert a * (w - 1) == Pow(a, p) - a;
    EuclidLemma(p, a, w - 1);
    SameRemainder(p, w, 1);
    DivModUnique(1, p, 0, 1);
  }

  /** The only square roots of 1 modulo a prime. */
  lemma RootsOfOne(p: int, x: int)
    requires IsPrime(p) && 0 <= x < p && (x * x) % p == 1
    ensures x == 1 || x == p - 1
  {
    DivModUnique(1, p, 0, 1);
    SameRemainder(p, x * x, 1);
    assert (x - 1) * (x + 1) == x * x - 1;
    if !Divides(p, x - 1) {
      EuclidLemma(p, x - 1, x + 1);
      DivisorBound(p, x + 1);
    } else {
      if x >= 2 {
        DivisorBound(p, x - 1);
      } else if x == 0 {
        DivModUnique(-1, p, -1, p - 1);
      }
    }
  }

  // ---- There is always another prime -------------------------------------------------------

  lemma {:induction false} PrimeFactor(n: int) returns (p: int)
    requires n >= 2
    ensures IsPrime(p) && Divides(p, n)
    decreases n
  {
    if IsPrime(n) {
      DividesIntro(n, n, 1);
      p := n;
    } else {
      var d :| 2 <= d < n && Divides(d, n);
      p := PrimeFactor(d);
      DividesTransitive(p, d, n);
    }
  }

  function Factorial(n: nat): (f: int)
    ensures f >= 1
  {
    if n == 0 then 1
    else
      var f := Factorial(n - 1);
      assert (n - 1) * f >= 0;
      n * f
  }

  lemma {:induction false} DividesFactorial(d: int, n: nat)
    requires 1 <= d <= n
    ensures Divides(d, Factorial(n))
  {
    if d == n {
      DividesIntro(n, Factorial(n), Factorial(n - 1));
    } else {
      DividesFactorial(d, n - 1);
      DividesMultiple(d, Factorial(n - 1), n);
    }
  }

  lemma PrimeAbove(n: int) returns (p: int)
    ensures p > n && IsPrime(p)
  {
    if n < 2 {
      p := 2;
    } else {
      p := PrimeFactor(Factorial(n) + 1);
      if p <= n {
        DividesFactorial(p, n);
        DividesSum(p, Factorial(n) + 1, Factorial(n));
        assert Divides(p, 1);
        DivisorBound(p, 1);
        assert false;
      }
    }
  }
}

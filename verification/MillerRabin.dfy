/** The deterministic Miller-Rabin test and the search that steps over odd candidates with it. */
module MillerRabin {
  import opened NumberTheory
  import opened PrimeSearch
  import HashArithmetic

  const SMALL_PRIMES: seq<int> := [2, 3, 5, 7, 11, 13, 17, 19, 23, 29, 31, 37]
  const BASES: seq<int> := [2, 325, 9375, 28178, 450775, 9780504, 1795265022]

  /** The three-argument power of the standard library. */
  function PowMod(b: int, e: nat, m: int): int
    requires m >= 1
  {
    Pow(b, e) % m
  }

  // n == Odd(n) * 2^Twos(n)

  function Twos(n: nat): nat {
    if n > 0 && n % 2 == 0 then 1 + Twos(n / 2) else 0
  }

  function Odd(n: nat): nat {
    if n > 0 && n % 2 == 0 then Odd(n / 2) else n
  }

  /** The power after i squarings. */
  function Squared(w: int, i: nat, v: int): int
    requires v >= 1
  {
    if i == 0 then w else PowMod(Squared(w, i - 1, v), 2, v)
  }

  ghost predicate Passes(b: int, v: int)
    requires v >= 2
  {
    var w := PowMod(b, Odd(v - 1), v);
    b % v == 0 || w == 1 || w == v - 1 || exists i :: 1 <= i < Twos(v - 1) && Squared(w, i, v) == v - 1
  }

  ghost predicate NoSmallFactor(v: int, upTo: nat)
    requires upTo <= |SMALL_PRIMES|
  {
    forall i :: 0 <= i < upTo ==> !Divides(SMALL_PRIMES[i], v)
  }

  /** What the test accepts. */
  ghost predicate Accepts(v: int) {
    v >= 2 &&
    if NoSmallFactor(v, |SMALL_PRIMES|) then forall b :: b in BASES ==> Passes(b, v)
    else v in SMALL_PRIMES
  }

  // ---- Modular powers ----------------------------------------------------------------------

  lemma {:induction false} PowAdd(b: int, d: nat, e: nat)
    ensures Pow(b, d + e) == Pow(b, d) * Pow(b, e)
  {
    if d > 0 {
      PowAdd(b, d - 1, e);
      Associate(b, Pow(b, d - 1), Pow(b, e));
    }
  }

  lemma Associate(x: int, y: int, z: int)
    ensures x * (y * z) == (x * y) * z
  {
  }

  lemma ModMultiply(x: int, y: int, m: int)
    requires m >= 1
    ensures (x % m) * (y % m) % m == x * y % m
  {
    var q, r, s, t := x / m, y / m, x % m, y % m;
    assert x == m * q + s && y == m * r + t;
    SplitMultiply(x, y, m, q, r, s, t);
  }

  lemma SplitMultiply(x: int, y: int, m: int, q: int, r: int, s: int, t: int)
    requires m >= 1 && x == m * q + s && y == m * r + t
    ensures s * t % m == x * y % m
  {
    ProductSplit(m, q, s, r, t);
    var d := x * y - s * t;
    assert d == m * (m * q * r + q * t + s * r);
    DividesIntro(m, d, m * q * r + q * t + s * r);
    SameRemainder(m, x * y, s * t);
  }

  lemma ProductSplit(m: int, q: int, s: int, r: int, t: int)
    ensures (m * q + s) * (m * r + t) - s * t == m * (m * q * r + q * t + s * r)
  {
    assert (m * q + s) * (m * r + t) == (m * q) * (m * r) + (m * q) * t + s * (m * r) + s * t;
  }

  lemma SquareMod(x: int, m: int)
    requires m >= 1
    ensures PowMod(x % m, 2, m) == x * x % m
  {
    var y := x % m;
    assert Pow(y, 2) == y * Pow(y, 1) == y * y;
    ModMultiply(x, x, m);
  }

  /** d doubled i times. */
  function Doubled(d: nat, i: nat): nat {
    if i == 0 then d else 2 * Doubled(d, i - 1)
  }

  /** Squaring i times doubles the exponent i times. */
  lemma {:induction false} SquaredIsPower(b: int, d: nat, i: nat, v: int)
    requires v >= 1
    ensures Squared(PowMod(b, d, v), i, v) == PowMod(b, Doubled(d, i), v)
  {
    if i > 0 {
      SquaredIsPower(b, d, i - 1, v);
      var e := Doubled(d, i - 1);
      SquareMod(Pow(b, e), v);
      PowAdd(b, e, e);
    }
  }

  lemma {:induction false} OddTimesTwos(n: nat)
    ensures n == Doubled(Odd(n), Twos(n))
    ensures n > 0 && n % 2 == 0 ==> Twos(n) >= 1
  {
    if n > 0 && n % 2 == 0 {
      OddTimesTwos(n / 2);
    }
  }

  // ---- No prime is rejected ----------------------------------------------------------------

  lemma {:induction false} SquaredRange(w: int, i: nat, v: int)
    requires v >= 1 && 0 <= w < v
    ensures 0 <= Squared(w, i, v) < v
  {
    if i > 0 {
      SquaredRange(w, i - 1, v);
    }
  }

  /** Walking back from a 1: either the chain was 1 all the way, or it left through -1. */
  lemma {:induction false} OnesComeFromMinusOne(w: int, i: nat, p: int)
    requires IsPrime(p) && 0 <= w < p && Squared(w, i, p) == 1
    ensures w == 1 || exists j :: 0 <= j < i && Squared(w, j, p) == p - 1
  {
    if i > 0 {
      var x := Squared(w, i - 1, p);
      SquaredRange(w, i - 1, p);
      assert Pow(x, 2) == x * Pow(x, 1) == x * x;
      RootsOfOne(p, x);
      if x == 1 {
        OnesComeFromMinusOne(w, i - 1, p);
      }
    }
  }

  lemma PrimePasses(p: int, b: int)
    requires IsPrime(p) && p > 2 && b >= 0
    ensures Passes(b, p)
  {
    if b % p != 0 {
      var d, s := Odd(p - 1), Twos(p - 1);
      var w := PowMod(b, d, p);
      assert p % 2 == 1 by { assert !Divides(2, p); }
      OddTimesTwos(p - 1);
      SquaredIsPower(b, d, s, p);
      FermatLittle(p, b);
      assert Squared(w, s, p) == 1;
      OnesComeFromMinusOne(w, s, p);
    }
  }

  /** The test never rejects a prime. */
  lemma PrimesAccepted(p: int)
    requires IsPrime(p)
    ensures Accepts(p)
  {
    if NoSmallFactor(p, |SMALL_PRIMES|) {
      assert !Divides(SMALL_PRIMES[0], p);
      forall b | b in BASES ensures Passes(b, p) {
        PrimePasses(p, b);
      }
    } else {
      var i :| 0 <= i < |SMALL_PRIMES| && Divides(SMALL_PRIMES[i], p);
      DivisorBound(SMALL_PRIMES[i], p);
      assert SMALL_PRIMES[i] == p;
    }
  }

  /** A small prime is only ever divided by itself among the listed primes. */
  lemma ListedPrimesCoprime(i: nat, j: nat)
    requires i < j < |SMALL_PRIMES|
    ensures !Divides(SMALL_PRIMES[i], SMALL_PRIMES[j])
  {
  }

  lemma FirstListedFactor(value: int, k: nat)
    requires value >= 2 && k < |SMALL_PRIMES| && NoSmallFactor(value, k) && Divides(SMALL_PRIMES[k], value)
    ensures value in SMALL_PRIMES <==> value == SMALL_PRIMES[k]
  {
    if value in SMALL_PRIMES {
      var j :| 0 <= j < |SMALL_PRIMES| && SMALL_PRIMES[j] == value;
      if j > k {
        ListedPrimesCoprime(k, j);
      }
    }
  }

  // ---- What acceptance means ---------------------------------------------------------------

  /** value is a strong probable prime to base b: with value - 1 == d * 2^s and d odd, b^d is 1 or one of b^d,
      b^2d, b^4d, ... below the s-th is -1. */
  ghost predicate StrongFor(b: int, value: int)
    requires value >= 2
  {
    forall d: nat, s: nat :: OddTimesPower(value - 1, d, s) ==>
      Pow(b, d) % value == 1 || MinusOneBelow(b, value, d, s)
  }

  ghost predicate OddTimesPower(n: int, d: nat, s: nat) {
    d % 2 == 1 && n == d * HashArithmetic.PowerOfTwo(s)
  }

  ghost predicate MinusOneBelow(b: int, value: int, d: nat, s: nat)
    requires value >= 2
  {
    exists i: nat :: i < s && Pow(b, d * HashArithmetic.PowerOfTwo(i)) % value == value - 1
  }

  /** A listed prime, or a number that none of them divides and that is a strong probable prime to every base. */
  ghost predicate ProbablyPrime(value: int) {
    value >= 2 &&
    (value in [2, 3, 5, 7, 11, 13, 17, 19, 23, 29, 31, 37] ||
     ((forall p :: p in [2, 3, 5, 7, 11, 13, 17, 19, 23, 29, 31, 37] ==> value % p != 0) &&
      forall b :: b in [2, 325, 9375, 28178, 450775, 9780504, 1795265022] ==> b % value == 0 || StrongFor(b, value)))
  }

  lemma {:induction false} DoubledIsProduct(d: nat, i: nat)
    ensures Doubled(d, i) == d * HashArithmetic.PowerOfTwo(i)
  {
    if i > 0 {
      DoubledIsProduct(d, i - 1);
      assert 2 * (d * HashArithmetic.PowerOfTwo(i - 1)) == d * (2 * HashArithmetic.PowerOfTwo(i - 1));
    }
  }

  /** The odd part and the number of halvings are the only ones. */
  lemma {:induction false} OddPartUnique(n: nat, d: nat, s: nat)
    requires d % 2 == 1 && n == Doubled(d, s)
    ensures n > 0 && Odd(n) == d && Twos(n) == s
  {
    if s > 0 {
      OddPartUnique(n / 2, d, s - 1);
    }
  }

  lemma {:induction false} OddIsOdd(n: nat)
    ensures n > 0 ==> Odd(n) % 2 == 1
  {
    if n > 0 && n % 2 == 0 {
      OddIsOdd(n / 2);
    }
  }

  lemma PassesIsStrong(b: int, value: int)
    requires value >= 2 && value % 2 == 1
    ensures Passes(b, value) <==> b % value == 0 || StrongFor(b, value)
  {
    hide *;
    OddPartOf(value - 1);
    var d, s := Odd(value - 1), Twos(value - 1);
    PassesByPowers(b, value, d, s);
    OnlyOddPart(value - 1, d, s);
    StrongByOnePart(b, value, d, s);
  }

  ghost predicate OnlyPart(n: int, d: nat, s: nat) {
    forall d': nat, s': nat :: OddTimesPower(n, d', s') ==> d' == d && s' == s
  }

  lemma OddPartOf(n: nat)
    requires n > 0
    ensures OddTimesPower(n, Odd(n), Twos(n)) && (n % 2 == 0 ==> Twos(n) >= 1)
  {
    OddTimesTwos(n);
    OddIsOdd(n);
    DoubledIsProduct(Odd(n), Twos(n));
  }

  /** One split of value - 1 is enough, as there is only one. */
  lemma StrongByOnePart(b: int, value: int, d: nat, s: nat)
    requires value >= 2 && OddTimesPower(value - 1, d, s)
    requires OnlyPart(value - 1, d, s)
    ensures StrongFor(b, value) <==> Pow(b, d) % value == 1 || MinusOneBelow(b, value, d, s)
  {
    hide OddTimesPower, MinusOneBelow, Pow;
  }

  lemma PassesByPowers(b: int, value: int, d: nat, s: nat)
    requires value >= 2 && d == Odd(value - 1) && s == Twos(value - 1) >= 1
    ensures Passes(b, value) <==> b % value == 0 || Pow(b, d) % value == 1 || MinusOneBelow(b, value, d, s)
  {
    hide Pow, Squared, Odd, Twos, HashArithmetic.PowerOfTwo;
    var w := PowMod(b, d, value);
    SquaredChain(b, d, value);
    SquaredNone(w, value);
    if MinusOneBelow(b, value, d, s) {
      var i: nat :| i < s && Pow(b, d * HashArithmetic.PowerOfTwo(i)) % value == value - 1;
      assert Squared(w, i, value) == value - 1;
    }
    if w == value - 1 {
      assert Squared(w, 0, value) == value - 1;
    }
  }

  lemma SquaredChain(b: int, d: nat, value: int)
    requires value >= 1
    ensures forall i: nat ::
      Squared(PowMod(b, d, value), i, value) == Pow(b, d * HashArithmetic.PowerOfTwo(i)) % value
  {
    forall i: nat
      ensures Squared(PowMod(b, d, value), i, value) == Pow(b, d * HashArithmetic.PowerOfTwo(i)) % value
    {
      SquaredIsPower(b, d, i, value);
      DoubledIsProduct(d, i);
    }
  }

  lemma OnlyOddPart(n: nat, d: nat, s: nat)
    requires OddTimesPower(n, d, s)
    ensures OnlyPart(n, d, s)
  {
    forall d': nat, s': nat | OddTimesPower(n, d', s') ensures d' == Odd(n) && s' == Twos(n) {
      DoubledIsProduct(d', s');
      OddPartUnique(n, d', s');
    }
  }

  lemma SquaredNone(w: int, v: int)
    requires v >= 1
    ensures Squared(w, 0, v) == w
  {
  }

  /** The test accepts exactly these numbers. */
  lemma AcceptsIsProbablyPrime(value: int)
    ensures Accepts(value) <==> ProbablyPrime(value)
  {
    hide Passes, StrongFor;
    if value >= 2 {
      if NoSmallFactor(value, |SMALL_PRIMES|) {
        assert !Divides(SMALL_PRIMES[0], value);
        forall p | p in SMALL_PRIMES ensures value % p != 0 {
          var i :| 0 <= i < |SMALL_PRIMES| && SMALL_PRIMES[i] == p;
          assert !Divides(SMALL_PRIMES[i], value);
        }
        forall b | b in BASES ensures Passes(b, value) <==> b % value == 0 || StrongFor(b, value) {
          PassesIsStrong(b, value);
        }
      } else {
        var i :| 0 <= i < |SMALL_PRIMES| && Divides(SMALL_PRIMES[i], value);
        assert value % SMALL_PRIMES[i] == 0 && SMALL_PRIMES[i] in SMALL_PRIMES;
      }
    }
  }

  lemma ListedUpTo40(p: int)
    requires IsPrime(p) && p <= 40
    ensures p in SMALL_PRIMES
  {
    if p !in SMALL_PRIMES {
      UnlistedComposite(p);
    }
  }

  lemma UnlistedComposite(p: int)
    requires 2 <= p <= 40 && p !in SMALL_PRIMES
    ensures (p > 2 && Divides(2, p)) || (p > 3 && Divides(3, p)) || (p > 5 && Divides(5, p))
  {
  }

  lemma ListedArePrime(p: int)
    requires p in SMALL_PRIMES
    ensures IsPrime(p)
  {
  }

  lemma SquareAbove(d: int, bound: nat)
    ensures d >= bound ==> d * d >= bound * bound
  {
  }

  /** A composite has a divisor whose square it reaches. */
  lemma SmallDivisor(n: int) returns (d: int)
    requires n >= 2 && !IsPrime(n)
    ensures 2 <= d && d * d <= n && Divides(d, n)
  {
    var e :| 2 <= e < n && Divides(e, n);
    var q := Quotient(e, n);
    CofactorAtLeastTwo(e, q);
    if e <= q {
      d := e;
      HashArithmetic.MonotoneProduct(e, e, e, q);
    } else {
      d := q;
      HashArithmetic.MonotoneProduct(q, e, q, q);
      assert n == q * e;
      DividesIntro(q, n, e);
    }
  }

  lemma CofactorAtLeastTwo(e: int, q: int)
    requires 2 <= e < e * q
    ensures q >= 2
  {
    if q <= 1 {
      HashArithmetic.MonotoneProduct(e, e, if q < 0 then 0 else q, 1);
    }
  }

  /** Below the square of the next prime the listed ones decide. */
  lemma SmallAcceptedIsPrime(value: int)
    requires Accepts(value) && value < 1681
    ensures IsPrime(value)
  {
    hide Passes;
    if !IsPrime(value) {
      var d := SmallDivisor(value);
      SquareAbove(d, 41);
      var p := PrimeFactor(d);
      DivisorBound(p, d);
      DividesTransitive(p, d, value);
      ListedUpTo40(p);
      var i :| 0 <= i < |SMALL_PRIMES| && SMALL_PRIMES[i] == p;
      assert !NoSmallFactor(value, |SMALL_PRIMES|);
      ListedArePrime(value);
    }
  }

  method IsPrime64(value: int) returns (r: bool)
    ensures r <==> Accepts(value)
    ensures r <==> ProbablyPrime(value)
    ensures IsPrime(value) ==> r
    ensures value < 1681 ==> (r <==> IsPrime(value))
  {
    AcceptsIsProbablyPrime(value);
    if Accepts(value) && value < 1681 { SmallAcceptedIsPrime(value); }
    if IsPrime(value) { PrimesAccepted(value); }
    hide ProbablyPrime;
    hide IsPrime;
    if value < 2 {
      return false;
    }
    for k := 0 to |SMALL_PRIMES|
      invariant NoSmallFactor(value, k)
    {
      if Divides(SMALL_PRIMES[k], value) {
        FirstListedFactor(value, k);
        return value == SMALL_PRIMES[k];
      }
    }
    var exponent, shifts := value - 1, 0;
    while exponent % 2 == 0
      invariant exponent > 0 && shifts >= 0
      invariant Odd(exponent) == Odd(value - 1) && Twos(exponent) + shifts == Twos(value - 1)
      decreases exponent
    {
      exponent := exponent / 2;
      shifts := shifts + 1;
    }
    for k := 0 to |BASES|
      invariant forall i :: 0 <= i < k ==> Passes(BASES[i], value)
    {
      var pass := TryBase(BASES[k], value, exponent, shifts);
      if !pass {
        assert BASES[k] in BASES;
        return false;
      }
    }
    return true;
  }

  /** One round: continue with the next base, or give up on value. */
  method TryBase(base: int, value: int, exponent: nat, shifts: nat) returns (pass: bool)
    requires value >= 2 && exponent == Odd(value - 1) && shifts == Twos(value - 1)
    ensures pass <==> Passes(base, value)
    ensures value % 2 == 1 ==> (pass <==> base % value == 0 || StrongFor(base, value))
  {
    if value % 2 == 1 { PassesIsStrong(base, value); }
    hide StrongFor;
    if base % value == 0 {
      return true;
    }
    var power := PowMod(base, exponent, value);
    ghost var w := power;
    if power == 1 || power == value - 1 {
      return true;
    }
    var i := 1;
    while i < shifts
      invariant 1 <= i && (i <= shifts || i == 1)
      invariant power == Squared(w, i - 1, value)
      invariant forall j :: 1 <= j < i ==> Squared(w, j, value) != value - 1
    {
      power := PowMod(power, 2, value);
      if power == value - 1 {
        assert Squared(w, i, value) == value - 1;
        return true;
      }
      i := i + 1;
    }
    return false;
  }

  // ---- Stepping over odd candidates --------------------------------------------------------

  /** Number of accepted candidates in (a, b]. */
  ghost function AcceptedIn(a: int, b: int): nat
    decreases b - a
  {
    if b <= a then 0 else AcceptedIn(a, b - 1) + if Accepts(b) then 1 else 0
  }

  /** r is what the search ends at: the count-th accepted candidate after start. */
  ghost predicate NthAccepted(start: int, count: nat, r: int) {
    if count == 0 then r == start
    else r > start && Accepts(r) && AcceptedIn(start, r) == count
  }

  lemma {:induction false} NoneAccepted(a: int, b: int, c: int)
    requires a <= b <= c && forall q :: b < q <= c ==> !Accepts(q)
    ensures AcceptedIn(a, c) == AcceptedIn(a, b)
    decreases c - b
  {
    if b < c {
      NoneAccepted(a, b, c - 1);
    }
  }

  lemma EvenRejected(v: int)
    requires v > 2 && v % 2 == 0
    ensures !Accepts(v)
  {
    assert Divides(SMALL_PRIMES[0], v);
    if v in SMALL_PRIMES {
      var j :| 0 <= j < |SMALL_PRIMES| && SMALL_PRIMES[j] == v;
      ListedPrimesCoprime(0, j);
    }
  }

  /** One iteration of the outer loop: the next accepted candidate. */
  method NextAccepted(last: int) returns (candidate: int)
    ensures candidate > last && Accepts(candidate) && forall q :: last < q < candidate ==> !Accepts(q)
  {
    hide Accepts, IsPrime, ProbablyPrime;
    candidate := last + 1;
    if candidate <= 2 {
      SmallestAccepted();
      return 2;
    }
    ghost var limit := PrimeAbove(candidate);
    OddPrime(limit);
    if candidate % 2 == 0 {
      EvenRejected(candidate);
      candidate := candidate + 1;
    }
    var found := IsPrime64(candidate);
    while !found
      invariant last < candidate <= limit && candidate % 2 == 1
      invariant found <==> Accepts(candidate)
      invariant IsPrime(candidate) ==> found
      invariant forall q :: last < q < candidate ==> !Accepts(q)
      decreases limit - candidate
    {
      EvenRejected(candidate + 1);
      candidate := candidate + 2;
      found := IsPrime64(candidate);
    }
  }

  method NthPrimeAfter(start: int, count: nat) returns (prime: int)
    ensures NthAccepted(start, count, prime)
    ensures count > 0 ==> ProbablyPrime(prime)
    ensures prime < 1681 ==> prime == NthPrime(start, count)
  {
    hide Accepts, ProbablyPrime, NthPrime;
    prime := start;
    for k := 0 to count
      invariant NthAccepted(start, k, prime)
    {
      ghost var last := prime;
      prime := NextAccepted(prime);
      NoneAccepted(start, last, prime - 1);
    }
    AcceptsIsProbablyPrime(prime);
    if prime < 1681 {
      SmallSearchExact(start, count, prime);
    }
  }

  lemma OddPrime(p: int)
    requires IsPrime(p) && p > 2
    ensures p % 2 == 1
  {
    assert !Divides(2, p);
  }

  lemma SmallestAccepted()
    ensures Accepts(2) && forall q :: q < 2 ==> !Accepts(q)
  {
    assert Divides(SMALL_PRIMES[0], 2);
    assert SMALL_PRIMES[0] == 2;
  }

  // ---- When the search is right ------------------------------------------------------------

  ghost predicate AcceptsOnlyPrimes(a: int, b: int) {
    forall v :: a < v <= b && Accepts(v) ==> IsPrime(v)
  }

  lemma {:induction false} AcceptedAtLeastPrimes(a: int, b: int)
    ensures AcceptedIn(a, b) >= PrimesIn(a, b)
    ensures AcceptedIn(a, b) == PrimesIn(a, b) <==> AcceptsOnlyPrimes(a, b)
    decreases b - a
  {
    hide Accepts, IsPrime;
    if a < b {
      AcceptedAtLeastPrimes(a, b - 1);
      if IsPrime(b) { PrimesAccepted(b); }
      if AcceptedIn(a, b) == PrimesIn(a, b) {
        assert AcceptsOnlyPrimes(a, b - 1);
      }
    }
  }

  lemma {:induction false} AcceptedMonotone(a: int, b: int, c: int)
    requires a <= b <= c
    ensures AcceptedIn(a, b) <= AcceptedIn(a, c)
    decreases c - b
  {
    if b < c {
      AcceptedMonotone(a, b, c - 1);
    }
  }

  /** The search never overshoots the true prime, and ends at it exactly when no composite up to it is
      accepted. */
  lemma SearchExact(start: int, count: nat, r: int)
    requires NthAccepted(start, count, r)
    ensures r <= NthPrime(start, count)
    ensures r == NthPrime(start, count) <==> AcceptsOnlyPrimes(start, NthPrime(start, count))
  {
    hide Accepts, IsPrime;
    var p := NthPrime(start, count);
    if count > 0 {
      NthPrimeCounts(start, count);
      PrimesAccepted(p);
      AcceptedAtLeastPrimes(start, p);
      if p < r {
        AcceptedMonotone(start, p, r - 1);
      } else if r < p {
        AcceptedMonotone(start, r, p - 1);
        assert AcceptedIn(start, p) == AcceptedIn(start, p - 1) + 1;
      }
    }
  }

  /** Among small numbers it always is the true prime. */
  lemma SmallSearchExact(start: int, count: nat, r: int)
    requires NthAccepted(start, count, r) && r < 1681
    ensures r == NthPrime(start, count)
  {
    hide Accepts, IsPrime, NthPrime;
    if count == 0 {
      NoPrimes(start);
    } else {
      forall v | start < v <= r && Accepts(v) ensures IsPrime(v) {
        SmallAcceptedIsPrime(v);
      }
      AcceptedAtLeastPrimes(start, r);
      CountDeterminesPrime(start, count, r);
    }
  }

  lemma NoPrimes(start: int)
    ensures NthPrime(start, 0) == start
  {
  }
}

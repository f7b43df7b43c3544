/** The prime searches that size the hash buckets: trial division, and the walks to the next primes. */
module PrimeSearch {
  import opened NumberTheory
  import opened Sequences

  // ---- Consecutive primes ------------------------------------------------------------------

  /** Number of primes in (a, b]. */
  ghost function PrimesIn(a: int, b: int): nat
    decreases b - a
  {
    if b <= a then 0 else PrimesIn(a, b - 1) + if IsPrime(b) then 1 else 0
  }

  ghost function LeastPrimeFrom(c: int, bound: int): (p: int)
    requires c <= bound && IsPrime(bound)
    ensures c <= p <= bound && IsPrime(p) && forall q :: c <= q < p ==> !IsPrime(q)
    decreases bound - c
  {
    if IsPrime(c) then c else LeastPrimeFrom(c + 1, bound)
  }

  ghost function NextPrime(n: int): (p: int)
    ensures p > n && IsPrime(p) && forall q :: n < q < p ==> !IsPrime(q)
  {
    assert exists b :: b > n && IsPrime(b) by { var b := PrimeAbove(n); }
    var b :| b > n && IsPrime(b);
    LeastPrimeFrom(n + 1, b)
  }

  /** The k-th prime after start; start itself for k = 0. */
  ghost function NthPrime(start: int, k: nat): int {
    if k == 0 then start else NextPrime(NthPrime(start, k - 1))
  }

  lemma {:induction false} NoPrimesBetween(a: int, b: int, c: int)
    requires a <= b <= c && forall q :: b < q <= c ==> !IsPrime(q)
    ensures PrimesIn(a, c) == PrimesIn(a, b)
    decreases c - b
  {
    if b < c {
      NoPrimesBetween(a, b, c - 1);
    }
  }

  /** NthPrime is what its name says: a prime with exactly k primes in (start, it]. */
  lemma {:induction false} NthPrimeCounts(start: int, k: nat)
    ensures NthPrime(start, k) >= start && PrimesIn(start, NthPrime(start, k)) == k
    ensures k > 0 ==> NthPrime(start, k) > start && IsPrime(NthPrime(start, k))
  {
    hide NextPrime;
    if k > 0 {
      NthPrimeCounts(start, k - 1);
      var p := NthPrime(start, k);
      NoPrimesBetween(start, NthPrime(start, k - 1), p - 1);
    }
  }

  lemma {:induction false} NthPrimeIncreasing(start: int, i: nat, j: nat)
    requires i < j
    ensures NthPrime(start, i) < NthPrime(start, j)
  {
    hide NextPrime, IsPrime;
    if i < j - 1 {
      NthPrimeIncreasing(start, i, j - 1);
    }
  }

  lemma {:induction false} PrimesInMonotone(a: int, b: int, c: int)
    requires a <= b <= c
    ensures PrimesIn(a, b) <= PrimesIn(a, c)
    decreases c - b
  {
    if b < c {
      PrimesInMonotone(a, b, c - 1);
    }
  }

  /** Only one number can be the prime with exactly k primes in (start, it]. */
  lemma CountDeterminesPrime(start: int, k: nat, p: int)
    requires k > 0 && p > start && IsPrime(p) && PrimesIn(start, p) == k
    ensures p == NthPrime(start, k)
  {
    var q := NthPrime(start, k);
    NthPrimeCounts(start, k);
    if p < q {
      PrimesInMonotone(start, p, q - 1);
    } else if q < p {
      PrimesInMonotone(start, q, p - 1);
    }
  }

  // ---- Trial division ----------------------------------------------------------------------

  /** The integer square root of the standard library. */
  function ISqrt(n: nat): (r: nat)
    ensures r * r <= n < (r + 1) * (r + 1)
  {
    if n == 0 then 0
    else
      var q := ISqrt(n - 1);
      if (q + 1) * (q + 1) <= n then q + 1 else q
  }

  lemma LargeProduct(s: int, d: int, q: int)
    requires 0 <= s < d && s < q
    ensures (s + 1) * (s + 1) <= d * q
  {
    var x, y := d - (s + 1), q - (s + 1);
    assert x * y >= 0 && x * (s + 1) >= 0 && (s + 1) * y >= 0;
    assert d * q == ((s + 1) + x) * ((s + 1) + y);
  }

  lemma CoFactor(d: int, n: int) returns (q: int)
    requires n >= 1 && 2 <= d < n && Divides(d, n)
    ensures q >= 2 && n == d * q && Divides(q, n)
  {
    q := Quotient(d, n);
    assert q <= 0 ==> d * q <= 0;
    assert q == 1 ==> d * q == d;
    DividesIntro(q, n, d);
  }

  /** A proper factor of an odd number gives an odd factor no larger than the square root. */
  lemma SmallerFactor(n: int, s: int, d: int) returns (e: int)
    requires n >= 3 && s >= 0 && n < (s + 1) * (s + 1) && n % 2 == 1
    requires 2 <= d < n && Divides(d, n)
    ensures 3 <= e <= s && Divides(e, n) && e % 2 == 1
  {
    var q := CoFactor(d, n);
    e := if d <= q then d else q;
    OddFactor(n, e);
    if e > s {
      LargeProduct(s, d, q);
    }
  }

  lemma OddFactor(n: int, e: int)
    requires e >= 2 && n % 2 == 1 && Divides(e, n)
    ensures e % 2 == 1
  {
    if e % 2 == 0 {
      DividesTransitive(2, e, n);
    }
  }

  lemma SmallAndEven(value: int)
    ensures value < 2 ==> !IsPrime(value)
    ensures value >= 2 && value % 2 == 0 ==> (IsPrime(value) <==> value == 2)
  {
    if value >= 2 && value % 2 == 0 {
      assert Divides(2, value);
    }
  }

  /** Trial division decides primality of every integer. */
  method IsPrimeTrial(value: int) returns (r: bool)
    ensures r <==> IsPrime(value)
  {
    hide ISqrt, IsPrime, Divides;
    SmallAndEven(value);
    if value < 2 {
      return false;
    }
    if value % 2 == 0 {
      return value == 2;
    }
    var s := ISqrt(value);
    var divisor := 3;
    while divisor < s + 1
      invariant divisor >= 3 && divisor % 2 == 1
      invariant forall e :: 3 <= e < divisor && e % 2 == 1 ==> !Divides(e, value)
    {
      if Divides(divisor, value) {
        ProperFactor(value, s, divisor);
        return false;
      }
      divisor := divisor + 2;
    }
    NoOddFactor(value, s);
    return true;
  }

  lemma ProperFactor(value: int, s: int, d: int)
    requires 3 <= d <= s && s * s <= value && Divides(d, value)
    ensures !IsPrime(value)
  {
    assert (s - d) * s >= 0 && (d - 3) * s >= 0;
    assert 3 * s <= value && d < value;
  }

  lemma NoOddFactor(value: int, s: int)
    requires value >= 3 && s >= 0 && value < (s + 1) * (s + 1) && value % 2 == 1
    requires forall e :: 3 <= e <= s && e % 2 == 1 ==> !Divides(e, value)
    ensures IsPrime(value)
  {
    if !IsPrime(value) {
      var d :| 2 <= d < value && Divides(d, value);
      var e := SmallerFactor(value, s, d);
      assert false;
    }
  }

  /** The count-th prime strictly after start, by stepping and trial division. */
  method FindNthPrimeAfter(start: int, count: nat) returns (prime: int)
    ensures prime == NthPrime(start, count)
  {
    hide NextPrime, IsPrime;
    prime := start;
    for i := 0 to count
      invariant prime == NthPrime(start, i)
    {
      ghost var next := NextPrime(prime);
      prime := prime + 1;
      var found := IsPrimeTrial(prime);
      while !found
        invariant NthPrime(start, i) < prime <= next
        invariant found <==> IsPrime(prime)
        decreases next - prime
      {
        prime := prime + 1;
        found := IsPrimeTrial(prime);
      }
    }
  }

  // ---- Drawing unseen primes ---------------------------------------------------------------

  lemma EmptyOrInhabited(s: set<int>)
    ensures s == {} || exists x :: x in s
  {
    if !exists x :: x in s {
      assert forall x :: x in s <==> x in {};
    }
  }

  lemma {:induction false} UpperBound(s: set<int>, n: int) returns (b: int)
    ensures b >= n && forall x :: x in s ==> x <= b
    decreases |s|
  {
    b := n;
    EmptyOrInhabited(s);
    if s != {} {
      var x: int :| x in s;
      b := UpperBound(s - {x}, if x > n then x else n);
      assert forall y :: y in s ==> y == x || y in s - {x};
    }
  }

  /** The smallest prime above start not handed out yet; the search ends because the primes do not. */
  method FindNextPrime(start: int, seen: set<int>) returns (candidate: int)
    ensures candidate > start && IsPrime(candidate) && candidate !in seen
    ensures forall q :: start < q < candidate && IsPrime(q) ==> q in seen
  {
    ghost var b := UpperBound(seen, start);
    ghost var limit := PrimeAbove(b);
    candidate := start + 1;
    var prime := IsPrimeTrial(candidate);
    while !prime || candidate in seen
      invariant start < candidate <= limit
      invariant prime <==> IsPrime(candidate)
      invariant forall q :: start < q < candidate && IsPrime(q) ==> q in seen
      decreases limit - candidate
    {
      candidate := candidate + 1;
      prime := IsPrimeTrial(candidate);
    }
  }

  /** The first n primes after start, ascending. */
  ghost function FirstPrimes(start: int, n: nat): (ps: seq<int>)
    ensures |ps| == n && forall i :: 0 <= i < n ==> ps[i] == NthPrime(start, i + 1)
  {
    seq(n, i requires 0 <= i < n => NthPrime(start, i + 1))
  }

  function FlatLayers(layers: seq<seq<seq<int>>>): seq<int> {
    if layers == [] then [] else FlatLayers(layers[..|layers| - 1]) + Flat(layers[|layers| - 1])
  }

  /** seen holds exactly the first n primes after start. */
  ghost predicate SeenFirst(seen: set<int>, start: int, n: nat) {
    forall q :: q in seen <==> start < q <= NthPrime(start, n) && IsPrime(q)
  }

  /** Restarting the walk below everything already drawn still gives the next prime in order. */
  lemma NextUnseen(start: int, n: nat, seen: set<int>, current: int, p: int)
    requires SeenFirst(seen, start, n) && start <= current <= NthPrime(start, n)
    requires p > current && IsPrime(p) && p !in seen
    requires forall q :: current < q < p && IsPrime(q) ==> q in seen
    ensures p == NthPrime(start, n + 1)
    ensures SeenFirst(seen + {p}, start, n + 1)
  {
    hide NextPrime, IsPrime, PrimesIn;
    NthPrimeCounts(start, n + 1);
    var next := NthPrime(start, n + 1);
    assert next !in seen;
  }

  lemma NothingDrawn(start: int)
    ensures SeenFirst({}, start, 0) && FirstPrimes(start, 0) == [] && FlatLayers([]) == [] && Flat<int>([]) == []
  {
  }

  lemma FirstPrimesGrow(start: int, n: nat)
    ensures FirstPrimes(start, n) + [NthPrime(start, n + 1)] == FirstPrimes(start, n + 1)
  {
  }

  lemma FlatLayersAppend(layers: seq<seq<seq<int>>>, g: seq<seq<int>>)
    ensures FlatLayers(layers + [g]) == FlatLayers(layers) + Flat(g)
  {
    assert (layers + [g])[..|layers|] == layers;
  }

  ghost predicate LayoutShape(primes: seq<seq<seq<int>>>, groups: nat, heads: nat) {
    forall l :: 0 <= l < |primes| ==> |primes[l]| == groups && GroupShape(primes[l], heads)
  }

  ghost predicate GroupShape(groups: seq<seq<int>>, heads: nat) {
    forall g :: 0 <= g < |groups| ==> |groups[g]| == heads
  }

  /** One n-gram size: the walk restarts at start, the shared set keeps it moving forward. */
  method DrawGroup(start: int, heads: nat, seen: set<int>, ghost drawn: nat) returns (sizes: seq<int>, seen': set<int>)
    requires SeenFirst(seen, start, drawn)
    ensures |sizes| == heads && SeenFirst(seen', start, drawn + heads)
    ensures FirstPrimes(start, drawn) + sizes == FirstPrimes(start, drawn + heads)
  {
    hide FirstPrimes, NthPrime, SeenFirst, PrimesIn, IsPrime;
    var current := start;
    sizes, seen' := [], seen;
    NthPrimeCounts(start, drawn);
    for h := 0 to heads
      invariant |sizes| == h && SeenFirst(seen', start, drawn + h)
      invariant start <= current <= NthPrime(start, drawn + h)
      invariant FirstPrimes(start, drawn) + sizes == FirstPrimes(start, drawn + h)
    {
      var p := FindNextPrime(current, seen');
      NextUnseen(start, drawn + h, seen', current, p);
      FirstPrimesGrow(start, drawn + h);
      assert FirstPrimes(start, drawn) + (sizes + [p]) == FirstPrimes(start, drawn) + sizes + [p];
      current := p;
      seen' := seen' + {p};
      sizes := sizes + [p];
    }
  }

  /** One layer: maxNgramSize - 1 groups. */
  method DrawLayer(start: int, groups: nat, heads: nat, seen: set<int>, ghost drawn: nat, ghost before: seq<int>)
      returns (perNgram: seq<seq<int>>, seen': set<int>, ghost drawn': nat)
    requires SeenFirst(seen, start, drawn) && before == FirstPrimes(start, drawn)
    ensures |perNgram| == groups && GroupShape(perNgram, heads)
    ensures SeenFirst(seen', start, drawn') && before + Flat(perNgram) == FirstPrimes(start, drawn')
  {
    hide FirstPrimes, NthPrime, SeenFirst, IsPrime;
    perNgram, seen', drawn' := [], seen, drawn;
    for g := 0 to groups
      invariant |perNgram| == g && GroupShape(perNgram, heads)
      invariant SeenFirst(seen', start, drawn')
      invariant before + Flat(perNgram) == FirstPrimes(start, drawn')
    {
      var sizes;
      sizes, seen' := DrawGroup(start, heads, seen', drawn');
      FlatAppend(perNgram, sizes);
      assert before + (Flat(perNgram) + sizes) == before + Flat(perNgram) + sizes;
      perNgram := perNgram + [sizes];
      drawn' := drawn' + heads;
    }
  }

  /** The whole layout: flattened in (layer, n-gram size, head) order it is exactly the primes from
      vocabSize on, consecutive and ascending. */
  method BuildLayout(layers: nat, maxNgramSize: nat, heads: nat, vocabSize: int) returns (primes: seq<seq<seq<int>>>)
    requires maxNgramSize >= 1
    ensures |primes| == layers && LayoutShape(primes, maxNgramSize - 1, heads)
    ensures FlatLayers(primes) == FirstPrimes(vocabSize - 1, |FlatLayers(primes)|)
  {
    var start := vocabSize - 1;
    primes := [];
    var seen := {};
    ghost var drawn: nat := 0;
    NothingDrawn(start);
    hide FirstPrimes, NthPrime, SeenFirst, IsPrime, GroupShape, Flat, FlatLayers;
    for l := 0 to layers
      invariant |primes| == l && LayoutShape(primes, maxNgramSize - 1, heads)
      invariant SeenFirst(seen, start, drawn) && FlatLayers(primes) == FirstPrimes(start, drawn)
    {
      var perNgram;
      perNgram, seen, drawn := DrawLayer(start, maxNgramSize - 1, heads, seen, drawn, FlatLayers(primes));
      FlatLayersAppend(primes, perNgram);
      primes := primes + [perNgram];
    }
  }

  /** No bucket size is used twice, in any layer, and each is at least the vocabulary size. */
  lemma LayoutPrimesDistinct(start: int, n: nat, i: nat, j: nat)
    requires i < j < n
    ensures start < FirstPrimes(start, n)[i] < FirstPrimes(start, n)[j]
    ensures IsPrime(FirstPrimes(start, n)[i])
  {
    hide NthPrime, IsPrime, PrimesIn;
    NthPrimeCounts(start, i + 1);
    NthPrimeIncreasing(start, i + 1, j + 1);
  }
}

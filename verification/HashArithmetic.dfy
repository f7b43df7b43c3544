/** The arithmetic of row ids: bounded odd multipliers, the XOR hash in 64-bit and in unbounded
    integers, and the disjoint bucket ranges the ids land in. */
module HashArithmetic {
  import opened NumberTheory
  import opened PrimeSearch
  import opened Sequences

  const MAX_LONG: int := 0x7FFF_FFFF_FFFF_FFFF
  const TWO_63: int := 0x8000_0000_0000_0000
  const TWO_64: int := 0x1_0000_0000_0000_0000

  // ---- Bitwise exclusive or ----------------------------------------------------------------

  function Xor(a: nat, b: nat): nat
    decreases a + b
  {
    if a == 0 && b == 0 then 0 else 2 * Xor(a / 2, b / 2) + (a % 2 + b % 2) % 2
  }

  function Bit(a: nat, i: nat): bool {
    if i == 0 then a % 2 == 1 else Bit(a / 2, i - 1)
  }

  /** Xor is the bitwise operation its name says. */
  lemma {:induction false} XorBit(a: nat, b: nat, i: nat)
    ensures Bit(Xor(a, b), i) <==> Bit(a, i) != Bit(b, i)
    decreases i
  {
    assert Xor(a, b) / 2 == Xor(a / 2, b / 2) && Xor(a, b) % 2 == (a % 2 + b % 2) % 2;
    if i > 0 {
      XorBit(a / 2, b / 2, i - 1);
    }
  }

  function PowerOfTwo(k: nat): nat {
    if k == 0 then 1 else 2 * PowerOfTwo(k - 1)
  }

  /** Operands that fit in k bits give a result that fits in k bits. */
  lemma {:induction false} XorBound(a: nat, b: nat, k: nat)
    requires a < PowerOfTwo(k) && b < PowerOfTwo(k)
    ensures Xor(a, b) < PowerOfTwo(k)
    decreases k
  {
    if k > 0 {
      XorBound(a / 2, b / 2, k - 1);
    }
  }

  lemma SixtyThreeBits()
    ensures PowerOfTwo(63) == TWO_63
  {
    assert PowerOfTwo(9) == 512;
    assert PowerOfTwo(18) == 512 * 512;
    assert PowerOfTwo(27) == 512 * 512 * 512;
    assert PowerOfTwo(36) == 512 * 512 * 512 * 512;
    assert PowerOfTwo(45) == 512 * 512 * 512 * 512 * 512;
    assert PowerOfTwo(54) == 512 * 512 * 512 * 512 * 512 * 512;
  }

  // ---- 64-bit integers ---------------------------------------------------------------------

  /** Two's complement wrap-around. */
  function Wrap(x: int): int {
    (x + TWO_63) % TWO_64 - TWO_63
  }

  function MulInt64(a: int, b: int): int { Wrap(a * b) }

  function XorInt64(a: int, b: int): int { Wrap(Xor(a % TWO_64, b % TWO_64)) }

  // ---- Multipliers -------------------------------------------------------------------------

  function Max(a: int, b: int): int { if a < b then b else a }

  /** The same bound in all four programs; V is at least 1. */
  function HalfBound(vocab: int): (h: int)
    ensures h >= 1
  {
    Max(1, (MAX_LONG / Max(vocab, 1)) / 2)
  }

  const SPLITMIX_GAMMA: int := 0x9E3779B97F4A7C15
  const SPLITMIX_M1: int := 0xBF58476D1CE4E5B9
  const SPLITMIX_M2: int := 0x94D049BB133111EB
  const PRIME_1: int := 10007

  function ShiftRight(x: nat, k: nat): nat { if k == 0 then x else ShiftRight(x / 2, k - 1) }

  function SplitMix64(value: int): (r: nat)
    ensures r < TWO_64
  {
    var v0 := (value + SPLITMIX_GAMMA) % TWO_64;
    var v1 := (Xor(v0, ShiftRight(v0, 30)) * SPLITMIX_M1) % TWO_64;
    var v2 := (Xor(v1, ShiftRight(v1, 27)) * SPLITMIX_M2) % TWO_64;
    Xor(v2, ShiftRight(v2, 31)) % TWO_64
  }

  /** A draw becomes an odd multiplier. */
  ghost predicate IsMultiplier(m: int, vocab: int) {
    m % 2 == 1 && 1 <= m <= 2 * HalfBound(vocab) - 1
  }

  function DrawnMultiplier(vocab: int, baseSeed: int, index: nat): int {
    2 * (SplitMix64((baseSeed + SPLITMIX_GAMMA * (index + 1)) % TWO_64) % HalfBound(vocab)) + 1
  }

  lemma SplitMixDraw(vocab: int, baseSeed: int, index: nat)
    ensures IsMultiplier(DrawnMultiplier(vocab, baseSeed, index), vocab)
  {
    hide SplitMix64;
    DrawIsMultiplier(SplitMix64((baseSeed + SPLITMIX_GAMMA * (index + 1)) % TWO_64) % HalfBound(vocab), vocab);
  }

  method BuildLayerMultipliers(vocab: int, ngramSize: nat, layerIndex: int, seed: int) returns (multipliers: seq<int>)
    ensures |multipliers| == ngramSize
    ensures forall i :: 0 <= i < ngramSize ==> IsMultiplier(multipliers[i], vocab)
    ensures forall i :: 0 <= i < ngramSize ==>
      multipliers[i] == 2 * (SplitMix64((seed + 10007 * layerIndex + SPLITMIX_GAMMA * (i + 1)) % TWO_64)
                             % HalfBound(vocab)) + 1
  {
    hide DrawnMultiplier, IsMultiplier;
    var baseSeed := seed + PRIME_1 * layerIndex;
    multipliers := [];
    for i := 0 to ngramSize
      invariant |multipliers| == i
      invariant forall k :: 0 <= k < i ==> IsMultiplier(multipliers[k], vocab)
      invariant forall k :: 0 <= k < i ==> multipliers[k] == DrawnMultiplier(vocab, baseSeed, k)
    {
      SplitMixDraw(vocab, baseSeed, i);
      multipliers := multipliers + [DrawnMultiplier(vocab, baseSeed, i)];
    }
    forall i | 0 <= i < ngramSize
      ensures multipliers[i] == 2 * (SplitMix64((baseSeed + SPLITMIX_GAMMA * (i + 1)) % TWO_64) % HalfBound(vocab)) + 1
    {
      DrawnIs(vocab, baseSeed, i);
    }
  }

  lemma DrawnIs(vocab: int, baseSeed: int, index: nat)
    ensures DrawnMultiplier(vocab, baseSeed, index)
         == 2 * (SplitMix64((baseSeed + SPLITMIX_GAMMA * (index + 1)) % TWO_64) % HalfBound(vocab)) + 1
  {
    hide SplitMix64, HalfBound;
  }

  /** Any draw in [0, bound) of the V4.1 generator gives such a multiplier too. */
  lemma DrawIsMultiplier(draw: int, vocab: int)
    requires 0 <= draw < HalfBound(vocab)
    ensures IsMultiplier(2 * draw + 1, vocab)
  {
  }

  lemma QuotientTimes(n: int, v: int)
    requires v >= 1
    ensures v * (n / v) <= n
  {
  }

  lemma MonotoneProduct(a: int, b: int, c: int, d: int)
    requires 0 <= a <= b && 0 <= c <= d
    ensures 0 <= a * c <= b * d
  {
    assert a * c <= b * c && b * c <= b * d by {
      assert (b - a) * c >= 0 && b * (d - c) >= 0;
    }
  }

  /** A token of the vocabulary times a multiplier never leaves the non-negative 64-bit range. */
  lemma ProductFits(token: int, m: int, vocab: int)
    requires 0 <= token < vocab && token <= MAX_LONG && IsMultiplier(m, vocab)
    ensures 0 <= token * m <= MAX_LONG
  {
    var q := MAX_LONG / vocab;
    if q >= 2 {
      assert m <= q;
      MonotoneProduct(token, vocab, m, q);
      QuotientTimes(MAX_LONG, vocab);
    } else {
      assert m == 1;
    }
  }

  // ---- The running hash --------------------------------------------------------------------

  ghost predicate Tokens(window: seq<int>, vocab: int) {
    forall i :: 0 <= i < |window| ==> 0 <= window[i] < vocab && window[i] <= MAX_LONG
  }

  ghost predicate Multipliers(ms: seq<int>, vocab: int) {
    forall i :: 0 <= i < |ms| ==> IsMultiplier(ms[i], vocab)
  }

  /** The hash of the first k look-backs, in unbounded integers; window[0] is the token itself. */
  ghost function Mixed(window: seq<int>, ms: seq<int>, vocab: int, k: nat): (h: nat)
    requires 1 <= k <= |window| == |ms| && Tokens(window, vocab) && Multipliers(ms, vocab)
    ensures h <= MAX_LONG
  {
    ProductFits(window[k - 1], ms[k - 1], vocab);
    if k == 1 then window[0] * ms[0]
    else
      SixtyThreeBits();
      XorBound(Mixed(window, ms, vocab, k - 1), window[k - 1] * ms[k - 1], 63);
      Xor(Mixed(window, ms, vocab, k - 1), window[k - 1] * ms[k - 1])
  }

  /** The same in 64-bit arithmetic, as the tensors compute it. */
  function MixedInt64(window: seq<int>, ms: seq<int>, k: nat): int
    requires 1 <= k <= |window| == |ms|
  {
    if k == 1 then MulInt64(window[0], ms[0])
    else XorInt64(MixedInt64(window, ms, k - 1), MulInt64(window[k - 1], ms[k - 1]))
  }

  lemma WrapIdentity(x: int)
    requires 0 <= x <= MAX_LONG
    ensures Wrap(x) == x && x % TWO_64 == x
  {
  }

  /** Nothing ever overflows, so 64-bit hashing is unbounded hashing. */
  lemma {:induction false} Int64HashIsExact(window: seq<int>, ms: seq<int>, vocab: int, k: nat)
    requires 1 <= k <= |window| == |ms| && Tokens(window, vocab) && Multipliers(ms, vocab)
    ensures MixedInt64(window, ms, k) == Mixed(window, ms, vocab, k)
  {
    hide Wrap, Xor;
    ProductFits(window[k - 1], ms[k - 1], vocab);
    WrapIdentity(window[k - 1] * ms[k - 1]);
    if k > 1 {
      Int64HashIsExact(window, ms, vocab, k - 1);
      WrapIdentity(Mixed(window, ms, vocab, k - 1));
      WrapIdentity(Mixed(window, ms, vocab, k));
    }
  }

  // ---- Row ids -----------------------------------------------------------------------------

  ghost predicate Sizes(blocks: seq<seq<int>>) {
    forall i, h :: 0 <= i < |blocks| && 0 <= h < |blocks[i]| ==> blocks[i][h] >= 1
  }

  function Remainders(mixed: int, sizes: seq<int>): (r: seq<int>)
    requires forall h :: 0 <= h < |sizes| ==> sizes[h] >= 1
    ensures |r| == |sizes|
    ensures forall h :: 0 <= h < |sizes| ==> 0 <= r[h] < sizes[h]
  {
    seq(|sizes|, h requires 0 <= h < |sizes| => mixed % sizes[h])
  }

  /** Hash columns of the first k n-gram sizes: block i holds the (i + 2)-gram. */
  function Columns(window: seq<int>, ms: seq<int>, blocks: seq<seq<int>>, k: nat): (cols: seq<int>)
    requires |window| == |ms| && k <= |blocks| < |window| && Sizes(blocks)
    ensures |cols| == |Flat(blocks[..k])|
    ensures forall c :: 0 <= c < |cols| ==> 0 <= cols[c] < Flat(blocks[..k])[c]
  {
    if k == 0 then []
    else
      assert blocks[..k][..k - 1] == blocks[..k - 1];
      Columns(window, ms, blocks, k - 1) + Remainders(MixedInt64(window, ms, k + 1), blocks[k - 1])
  }

  /** Sum of the first c sizes: where column c starts. */
  function Prefix(sizes: seq<int>, c: nat): int
    requires c <= |sizes|
  {
    if c == 0 then 0 else Prefix(sizes, c - 1) + sizes[c - 1]
  }

  function AddOffsets(cols: seq<int>, sizes: seq<int>): (ids: seq<int>)
    requires |cols| == |sizes|
    ensures |ids| == |cols|
  {
    seq(|cols|, c requires 0 <= c < |cols| => cols[c] + Prefix(sizes, c))
  }

  /** Row ids of one position from its look-back window. */
  function RowIds(window: seq<int>, ms: seq<int>, blocks: seq<seq<int>>): (ids: seq<int>)
    requires |window| == |ms| == |blocks| + 1 && Sizes(blocks)
    ensures |ids| == |Flat(blocks)|
  {
    assert blocks[..|blocks|] == blocks;
    AddOffsets(Columns(window, ms, blocks, |blocks|), Flat(blocks))
  }

  /** Head h of the (i + 2)-gram: the hash of the token and its i + 1 look-backs, reduced to the head's own
      bucket, behind the buckets of all heads before it. */
  ghost predicate IdIsHash(window: seq<int>, ms: seq<int>, blocks: seq<seq<int>>, vocab: int, ids: seq<int>, i: nat,
                           h: nat)
    requires |window| == |ms| == |blocks| + 1 && i < |blocks| && h < |blocks[i]| && blocks[i][h] >= 1
    requires Tokens(window, vocab) && Multipliers(ms, vocab)
  {
    var c := |Flat(blocks[..i])| + h;
    c < |ids| == |Flat(blocks)| &&
    ids[c] == Prefix(Flat(blocks), c) + Mixed(window, ms, vocab, i + 2) % blocks[i][h]
  }

  ghost predicate IdsAreHashes(window: seq<int>, ms: seq<int>, blocks: seq<seq<int>>, vocab: int, ids: seq<int>)
    requires |window| == |ms| == |blocks| + 1 && Sizes(blocks) && Tokens(window, vocab) && Multipliers(ms, vocab)
  {
    forall i, h :: 0 <= i < |blocks| && 0 <= h < |blocks[i]| ==> IdIsHash(window, ms, blocks, vocab, ids, i, h)
  }

  lemma {:induction false} FlatPrefix(blocks: seq<seq<int>>, i: nat, h: nat)
    requires i < |blocks| && h < |blocks[i]|
    ensures |Flat(blocks[..i])| + h < |Flat(blocks)|
    decreases |blocks|
  {
    var n := |blocks| - 1;
    if i < n {
      FlatPrefix(blocks[..n], i, h);
      assert blocks[..n][..i] == blocks[..i];
    }
  }

  /** Every column is some head of some n-gram size. */
  lemma {:induction false} HeadOfColumn(blocks: seq<seq<int>>, c: nat) returns (i: nat, h: nat)
    requires c < |Flat(blocks)|
    ensures i < |blocks| && h < |blocks[i]| && c == |Flat(blocks[..i])| + h
  {
    var n := |blocks| - 1;
    if c < |Flat(blocks[..n])| {
      i, h := HeadOfColumn(blocks[..n], c);
      assert blocks[..n][..i] == blocks[..i];
    } else {
      i, h := n, c - |Flat(blocks[..n])|;
    }
  }

  lemma {:induction false} ColumnIsHash(window: seq<int>, ms: seq<int>, blocks: seq<seq<int>>, k: nat, i: nat, h: nat)
    requires |window| == |ms| && i < k <= |blocks| < |window| && Sizes(blocks) && h < |blocks[i]|
    ensures var c := |Flat(blocks[..i])| + h;
      c < |Columns(window, ms, blocks, k)| &&
      Columns(window, ms, blocks, k)[c] == MixedInt64(window, ms, i + 2) % blocks[i][h]
    decreases k
  {
    hide MixedInt64;
    assert blocks[..k][..k - 1] == blocks[..k - 1];
    if i < k - 1 {
      ColumnIsHash(window, ms, blocks, k - 1, i, h);
    }
  }

  /** So row ids are these hashes. */
  lemma RowIdsAreHashes(window: seq<int>, ms: seq<int>, blocks: seq<seq<int>>, vocab: int)
    requires |window| == |ms| == |blocks| + 1 && Sizes(blocks) && Tokens(window, vocab) && Multipliers(ms, vocab)
    ensures IdsAreHashes(window, ms, blocks, vocab, RowIds(window, ms, blocks))
  {
    hide MixedInt64, Mixed, Columns, Prefix, Flat;
    assert blocks[..|blocks|] == blocks;
    forall i, h | 0 <= i < |blocks| && 0 <= h < |blocks[i]|
      ensures IdIsHash(window, ms, blocks, vocab, RowIds(window, ms, blocks), i, h)
    {
      FlatPrefix(blocks, i, h);
      ColumnIsHash(window, ms, blocks, |blocks|, i, h);
      Int64HashIsExact(window, ms, vocab, i + 2);
    }
  }

  lemma AlwaysHashes(window: seq<int>, ms: seq<int>, blocks: seq<seq<int>>)
    requires |window| == |ms| == |blocks| + 1 && Sizes(blocks)
    ensures forall vocab :: Tokens(window, vocab) && Multipliers(ms, vocab) ==>
      IdsAreHashes(window, ms, blocks, vocab, RowIds(window, ms, blocks))
  {
    hide IdsAreHashes, RowIds;
    forall vocab | Tokens(window, vocab) && Multipliers(ms, vocab)
      ensures IdsAreHashes(window, ms, blocks, vocab, RowIds(window, ms, blocks))
    {
      RowIdsAreHashes(window, ms, blocks, vocab);
    }
  }

  lemma {:induction false} PrefixMonotone(sizes: seq<int>, c: nat, d: nat)
    requires c <= d <= |sizes| && forall i :: 0 <= i < |sizes| ==> sizes[i] >= 1
    ensures Prefix(sizes, c) + (d - c) <= Prefix(sizes, d)
  {
    if c < d {
      PrefixMonotone(sizes, c, d - 1);
    }
  }

  lemma {:induction false} FlatPositive(blocks: seq<seq<int>>)
    requires Sizes(blocks)
    ensures forall c :: 0 <= c < |Flat(blocks)| ==> Flat(blocks)[c] >= 1
  {
    if blocks != [] {
      FlatPositive(blocks[..|blocks| - 1]);
    }
  }

  /** Row x belongs to column c. */
  ghost predicate Owns(sizes: seq<int>, c: nat, x: int) {
    c < |sizes| && Prefix(sizes, c) <= x < Prefix(sizes, c + 1)
  }

  /** Every id lies in its own column's range, inside the table. */
  lemma IdsInRanges(window: seq<int>, ms: seq<int>, blocks: seq<seq<int>>, c: nat)
    requires |window| == |ms| == |blocks| + 1 && Sizes(blocks) && c < |Flat(blocks)|
    ensures Owns(Flat(blocks), c, RowIds(window, ms, blocks)[c])
    ensures 0 <= RowIds(window, ms, blocks)[c] < Prefix(Flat(blocks), |Flat(blocks)|)
  {
    var sizes := Flat(blocks);
    assert blocks[..|blocks|] == blocks;
    var cols := Columns(window, ms, blocks, |blocks|);
    assert RowIds(window, ms, blocks)[c] == cols[c] + Prefix(sizes, c);
    FlatPositive(blocks);
    hide Flat, Columns, RowIds;
    PrefixMonotone(sizes, 0, c);
    PrefixMonotone(sizes, c + 1, |sizes|);
  }

  /** No row belongs to two columns. */
  lemma OwnerUnique(sizes: seq<int>, c: nat, d: nat, x: int)
    requires forall i :: 0 <= i < |sizes| ==> sizes[i] >= 1
    requires Owns(sizes, c, x) && Owns(sizes, d, x)
    ensures c == d
  {
    if c < d {
      PrefixMonotone(sizes, c + 1, d);
    } else if d < c {
      PrefixMonotone(sizes, d + 1, c);
    }
  }

  /** The ranges cover the table: each row below the total belongs to some column. */
  lemma {:induction false} RangesCover(sizes: seq<int>, n: nat, x: int) returns (c: nat)
    requires n <= |sizes| && 0 <= x < Prefix(sizes, n)
    ensures c < n && Owns(sizes, c, x)
  {
    if x >= Prefix(sizes, n - 1) {
      c := n - 1;
    } else {
      c := RangesCover(sizes, n - 1, x);
    }
  }

  /** Rows allocated: the total rounded up to a multiple of the divisor. */
  function PaddedRows(total: nat, divisor: nat): nat
    requires divisor >= 1
  {
    ((total + divisor - 1) / divisor) * divisor
  }

  lemma PaddedCovers(total: nat, divisor: nat)
    requires divisor >= 1
    ensures total <= PaddedRows(total, divisor) < total + divisor
    ensures Divides(divisor, PaddedRows(total, divisor))
  {
    var q, r := (total + divisor - 1) / divisor, (total + divisor - 1) % divisor;
    assert total + divisor - 1 == divisor * q + r;
    assert q * divisor == divisor * q;
    DividesIntro(divisor, q * divisor, q);
  }

  // ---- The layout loop and the two hashing loops -------------------------------------------

  function GlobalHead(layerIndex: nat, heads: nat, head: nat): nat {
    layerIndex * heads + head
  }

  /** Sizes, offsets and total of one layer's heads. */
  method MakeVocabLayout(base: int, heads: nat, layerIndex: nat)
      returns (sizes: seq<int>, offsets: seq<int>, total: int)
    ensures |sizes| == |offsets| == heads
    ensures forall h :: 0 <= h < heads ==> sizes[h] == NthPrime(base - 1, GlobalHead(layerIndex, heads, h) + 1)
    ensures forall h :: 0 <= h < heads ==> offsets[h] == Prefix(sizes, h)
    ensures total == Prefix(sizes, heads)
  {
    hide GlobalHead, NthPrime;
    sizes, offsets, total := [], [], 0;
    for h := 0 to heads
      invariant |sizes| == |offsets| == h
      invariant forall k :: 0 <= k < h ==> sizes[k] == NthPrime(base - 1, GlobalHead(layerIndex, heads, k) + 1)
      invariant forall k :: 0 <= k < h ==> offsets[k] == Prefix(sizes, k)
      invariant total == Prefix(sizes, h)
    {
      var size := FindNthPrimeAfter(base - 1, GlobalHead(layerIndex, heads, h) + 1);
      PrefixStable(sizes, size);
      sizes := sizes + [size];
      offsets := offsets + [total];
      total := total + size;
    }
  }

  lemma {:induction false} PrefixOfPrefix(sizes: seq<int>, more: seq<int>, c: nat)
    requires c <= |sizes|
    ensures Prefix(sizes + more, c) == Prefix(sizes, c)
  {
    if c > 0 {
      PrefixOfPrefix(sizes, more, c - 1);
    }
  }

  lemma PrefixStable(sizes: seq<int>, size: int)
    ensures forall c :: 0 <= c <= |sizes| ==> Prefix(sizes + [size], c) == Prefix(sizes, c)
    ensures Prefix(sizes + [size], |sizes| + 1) == Prefix(sizes, |sizes|) + size
  {
    forall c | 0 <= c <= |sizes| ensures Prefix(sizes + [size], c) == Prefix(sizes, c) {
      PrefixOfPrefix(sizes, [size], c);
    }
  }

  lemma {:induction false} FlatLayersIndex(layers: seq<seq<seq<int>>>, w: nat, l: nat, k: nat)
    requires l < |layers| && k < w && forall i :: 0 <= i < |layers| ==> |Flat(layers[i])| == w
    ensures |FlatLayers(layers)| == |layers| * w
    ensures GlobalHead(l, w, k) < |FlatLayers(layers)| && FlatLayers(layers)[GlobalHead(l, w, k)] == Flat(layers[l])[k]
  {
    var n := |layers| - 1;
    var before := layers[..n];
    if n == 0 {
      assert FlatLayers(before) == [];
    } else {
      FlatLayersIndex(before, w, if l < n then l else 0, k);
    }
    NextMultiple(n, w);
    if l < n {
      MonotoneProduct(l + 1, n, w, w);
    }
  }

  /** The nested layout and the per-layer layout draw the same bucket sizes. */
  lemma LayoutsAgree(primes: seq<seq<seq<int>>>, groups: nat, heads: nat, start: int, l: nat, k: nat)
    requires LayoutShape(primes, groups, heads) && FlatLayers(primes) == FirstPrimes(start, |FlatLayers(primes)|)
    requires l < |primes| && k < |Flat(primes[l])|
    ensures Flat(primes[l])[k] == NthPrime(start, GlobalHead(l, groups * heads, k) + 1)
  {
    hide Flat, FlatLayers, GlobalHead, NthPrime;
    forall i | 0 <= i < |primes| ensures |Flat(primes[i])| == groups * heads {
      FlatLength(primes[i], heads);
    }
    FlatLayersIndex(primes, groups * heads, l, k);
  }

  /** Rolling form: one exclusive or per look-back, each prefix hashed as it appears. */
  method HashRolling(window: seq<int>, ms: seq<int>, blocks: seq<seq<int>>) returns (ids: seq<int>)
    requires |window| == |ms| == |blocks| + 1 && Sizes(blocks)
    ensures ids == RowIds(window, ms, blocks)
    ensures forall vocab :: Tokens(window, vocab) && Multipliers(ms, vocab) ==>
      IdsAreHashes(window, ms, blocks, vocab, ids)
  {
    hide MulInt64, XorInt64, Remainders, Flat, IdsAreHashes, Tokens, Multipliers;
    AlwaysHashes(window, ms, blocks);
    var rolling := MulInt64(window[0], ms[0]);
    var hashes := [];
    var i := 1;
    while i < |window|
      invariant 1 <= i <= |window|
      invariant rolling == MixedInt64(window, ms, i)
      invariant hashes == Columns(window, ms, blocks, i - 1)
    {
      rolling := XorInt64(rolling, MulInt64(window[i], ms[i]));
      hashes := hashes + Remainders(rolling, blocks[i - 1]);
      i := i + 1;
    }
    assert blocks[..|blocks|] == blocks;
    ids := AddOffsets(hashes, Flat(blocks));
  }

  /** Block form: every n-gram size mixes its own look-backs from the start. */
  method HashByNgram(window: seq<int>, ms: seq<int>, blocks: seq<seq<int>>) returns (ids: seq<int>)
    requires |window| == |ms| == |blocks| + 1 && Sizes(blocks)
    ensures ids == RowIds(window, ms, blocks)
    ensures forall vocab :: Tokens(window, vocab) && Multipliers(ms, vocab) ==>
      IdsAreHashes(window, ms, blocks, vocab, ids)
  {
    hide MulInt64, XorInt64, Remainders, Flat, IdsAreHashes, Tokens, Multipliers;
    AlwaysHashes(window, ms, blocks);
    var cols := [];
    for b := 0 to |blocks|
      invariant cols == Columns(window, ms, blocks, b)
    {
      var mixed := MulInt64(window[0], ms[0]);
      for position := 1 to b + 2
        invariant mixed == MixedInt64(window, ms, position)
      {
        mixed := XorInt64(mixed, MulInt64(window[position], ms[position]));
      }
      cols := cols + Remainders(mixed, blocks[b]);
    }
    assert blocks[..|blocks|] == blocks;
    ids := AddOffsets(cols, Flat(blocks));
  }
}

/** The FNV-1a checksum in its two forms, and the walk from row ids to shard files that both sides hash. */
module BitwiseCheck {
  import opened NumberTheory
  import opened Sequences
  import opened HashArithmetic

  const FNV_OFFSET: nat := 0xcbf29ce484222325
  const FNV_PRIME: nat := 0x100000001b3
  const FNV_PRIME_INVERSE: nat := 0xce965057aff6957b
  const MASK_64: nat := 0xFFFF_FFFF_FFFF_FFFF

  type Bytes = s: seq<nat> | forall i :: 0 <= i < |s| ==> s[i] < 256

  // ---- One step ----------------------------------------------------------------------------

  function Step(h: nat, b: nat): (r: nat)
    ensures r < TWO_64
  {
    (Xor(h, b) * FNV_PRIME) % TWO_64
  }

  function Unstep(s: nat, b: nat): nat {
    Xor((s * FNV_PRIME_INVERSE) % TWO_64, b)
  }

  lemma XorHalves(a: nat, b: nat)
    ensures Xor(a, b) / 2 == Xor(a / 2, b / 2) && Xor(a, b) % 2 == (a % 2 + b % 2) % 2
  {
  }

  lemma SameHalves(x: nat, y: nat)
    requires x / 2 == y / 2 && x % 2 == y % 2
    ensures x == y
  {
  }

  lemma ParityUndoes(p: int, q: int)
    ensures ((p % 2 + q % 2) % 2 + q % 2) % 2 == p % 2
  {
  }

  lemma XorNothing()
    ensures Xor(0, 0) == 0
  {
  }

  lemma {:induction false} XorUndoes(a: nat, b: nat)
    ensures Xor(Xor(a, b), b) == a
    decreases a + b
  {
    hide Xor;
    if a == 0 && b == 0 {
      XorNothing();
    } else {
      XorUndoes(a / 2, b / 2);
      XorHalves(a, b);
      XorHalves(Xor(a, b), b);
      ParityUndoes(a, b);
      SameHalves(Xor(Xor(a, b), b), a);
    }
  }

  lemma {:induction false} XorCommutes(a: nat, b: nat)
    ensures Xor(a, b) == Xor(b, a)
    decreases a + b
  {
    if a != 0 || b != 0 {
      XorCommutes(a / 2, b / 2);
    }
  }

  lemma XorFits(h: nat, b: nat)
    requires h < TWO_64 && b < TWO_64
    ensures Xor(h, b) < TWO_64
  {
    SixtyThreeBits();
    assert PowerOfTwo(64) == 2 * PowerOfTwo(63);
    XorBound(h, b, 64);
  }

  /** Multiplying by inverses modulo 2^64 cancels. */
  lemma InverseCancels(x: nat, p: nat, q: nat, k: nat)
    requires x < TWO_64 && p * q == 1 + k * TWO_64
    ensures (((x * p) % TWO_64) * q) % TWO_64 == x
  {
    var d, r := (x * p) / TWO_64, (x * p) % TWO_64;
    assert x * p == TWO_64 * d + r;
    calc {
      r * q;
      (x * p - TWO_64 * d) * q;
      x * (p * q) - TWO_64 * (d * q);
      x * (1 + k * TWO_64) - TWO_64 * (d * q);
      TWO_64 * (x * k - d * q) + x;
    }
    DivModUnique(r * q, TWO_64, x * k - d * q, x);
  }

  lemma PrimeInverse()
    ensures FNV_PRIME * FNV_PRIME_INVERSE == 1 + 887285111055 * TWO_64
    ensures FNV_PRIME_INVERSE * FNV_PRIME == 1 + 887285111055 * TWO_64
  {
  }

  /** Each step is a bijection of 64-bit states, whatever the byte. */
  lemma StepIsBijective(h: nat, b: nat)
    requires h < TWO_64 && b < 256
    ensures Unstep(Step(h, b), b) == h
    ensures Unstep(h, b) < TWO_64 && Step(Unstep(h, b), b) == h
  {
    hide Xor;
    PrimeInverse();
    XorFits(h, b);
    XorUndoes(h, b);
    InverseCancels(Xor(h, b), FNV_PRIME, FNV_PRIME_INVERSE, 887285111055);
    var y := (h * FNV_PRIME_INVERSE) % TWO_64;
    XorFits(y, b);
    XorUndoes(y, b);
    InverseCancels(h, FNV_PRIME_INVERSE, FNV_PRIME, 887285111055);
  }

  /** And different bytes lead one state to different states. */
  lemma StepSeparatesBytes(h: nat, b: nat, c: nat)
    requires h < TWO_64 && b < 256 && c < 256 && Step(h, b) == Step(h, c)
    ensures b == c
  {
    hide Xor, Step;
    StepIsBijective(h, b);
    StepIsBijective(h, c);
    var s := (Step(h, b) * FNV_PRIME_INVERSE) % TWO_64;
    XorUndoes(s, b);
    XorUndoes(s, c);
    XorCommutes(s, b);
    XorCommutes(s, c);
    XorUndoes(b, s);
    XorUndoes(c, s);
  }

  // ---- Whole strings -----------------------------------------------------------------------

  function Hash(h: nat, data: Bytes): nat
    decreases |data|
  {
    if data == [] then h else Step(Hash(h, data[..|data| - 1]), data[|data| - 1])
  }

  lemma {:induction false} HashFits(h: nat, data: Bytes)
    requires h < TWO_64
    ensures Hash(h, data) < TWO_64
    decreases |data|
  {
  }

  lemma {:induction false} HashAppend(h: nat, a: Bytes, b: Bytes)
    ensures Hash(h, a + b) == Hash(Hash(h, a), b)
    decreases |b|
  {
    if b == [] {
      assert a + b == a;
    } else {
      assert (a + b)[..|a + b| - 1] == a + b[..|b| - 1];
      HashAppend(h, a, b[..|b| - 1]);
    }
  }

  /** A common ending never brings different states together. */
  lemma {:induction false} HashIsInjective(h: nat, g: nat, data: Bytes)
    requires h < TWO_64 && g < TWO_64 && Hash(h, data) == Hash(g, data)
    ensures h == g
    decreases |data|
  {
    hide Step;
    if data == [] {
    } else {
      var front, last := data[..|data| - 1], data[|data| - 1];
      HashFits(h, front);
      HashFits(g, front);
      StepIsBijective(Hash(h, front), last);
      StepIsBijective(Hash(g, front), last);
      HashIsInjective(h, g, front);
    }
  }

  /** Strings of one length that differ in exactly one byte never share a hash. */
  lemma OneByteIsNoticed(front: Bytes, b: nat, c: nat, back: Bytes)
    requires b < 256 && c < 256 && b != c
    ensures Hash(FNV_OFFSET, front + [b] + back) != Hash(FNV_OFFSET, front + [c] + back)
  {
    hide Step;
    var h := Hash(FNV_OFFSET, front);
    HashFits(FNV_OFFSET, front);
    HashAppend(FNV_OFFSET, front + [b], back);
    HashAppend(FNV_OFFSET, front + [c], back);
    assert (front + [b])[..|front|] == front && (front + [c])[..|front|] == front;
    if Step(h, b) == Step(h, c) {
      StepSeparatesBytes(h, b, c);
    }
    if Hash(Step(h, b), back) == Hash(Step(h, c), back) {
      HashIsInjective(Step(h, b), Step(h, c), back);
    }
  }

  // ---- Known checksums ---------------------------------------------------------------------

  lemma {:induction false} XorZero(a: nat)
    ensures Xor(a, 0) == a
  {
    if a != 0 {
      XorZero(a / 2);
    }
  }

  /** A byte only meets the low eight bits. */
  lemma XorByte(high: nat, low: nat, b: nat)
    requires low < 256 && b < 256
    ensures Xor(256 * high + low, b) == 256 * high + Xor(low, b)
  {
    XorLow(high, low, b, 8);
    assert PowerOfTwo(8) == 256;
  }

  lemma {:induction false} XorLow(high: nat, low: nat, b: nat, k: nat)
    requires low < PowerOfTwo(k) && b < PowerOfTwo(k)
    ensures Xor(PowerOfTwo(k) * high + low, b) == PowerOfTwo(k) * high + Xor(low, b)
    decreases k
  {
    hide Xor;
    if k == 0 {
      XorZero(high);
      XorNothing();
    } else {
      var half := PowerOfTwo(k - 1);
      XorLow(high, low / 2, b / 2, k - 1);
      DoubledProduct(half, high);
      XorAbove(half * high, low, b);
    }
  }

  lemma DoubledProduct(half: nat, high: nat)
    ensures half * high >= 0 && (2 * half) * high == 2 * (half * high)
  {
  }

  lemma XorAbove(high: nat, low: nat, b: nat)
    requires Xor(high + low / 2, b / 2) == high + Xor(low / 2, b / 2)
    ensures Xor(2 * high + low, b) == 2 * high + Xor(low, b)
  {
    hide Xor;
    var a := 2 * high + low;
    assert a / 2 == high + low / 2 && a % 2 == low % 2;
    XorHalves(a, b);
    XorHalves(low, b);
    SameHalves(Xor(a, b), 2 * high + Xor(low, b));
  }

  /** One step, from the exclusive or of the low byte. */
  lemma StepTo(high: nat, low: nat, b: nat, mixed: nat, next: nat)
    requires low < 256 && b < 256 && mixed == Xor(low, b)
    requires next == ((256 * high + mixed) * FNV_PRIME) % TWO_64
    ensures Step(256 * high + low, b) == next
  {
    XorByte(high, low, b);
  }

  lemma XorStep(a: nat, b: nat, half: nat)
    requires Xor(a / 2, b / 2) == half
    ensures Xor(a, b) == 2 * half + (a % 2 + b % 2) % 2
  {
    hide Xor;
    XorHalves(a, b);
  }

  lemma LowBytes()
    ensures Xor(0x25, 0x61) == 0x44
  {
    hide Xor;
    XorNothing();
    XorStep(0, 1, 0);
    XorStep(1, 3, 1);
    XorStep(2, 6, 2);
    XorStep(4, 12, 4);
    XorStep(9, 24, 8);
    XorStep(18, 48, 17);
    XorStep(37, 97, 34);
  }

  /** Values that the program's own tests name: of the empty string and of "a". */
  lemma KnownChecksums()
    ensures Hash(FNV_OFFSET, []) == 0xcbf29ce484222325
    ensures Hash(FNV_OFFSET, [0x61]) == 0xaf63dc4c8601ec8c
  {
    hide Step, Xor;
    LowBytes();
    StepTo(0xcbf29ce4842223, 0x25, 0x61, 0x44, 0xaf63dc4c8601ec8c);
    var one: Bytes := [0x61];
    assert one[..0] == [] && Hash(FNV_OFFSET, []) == FNV_OFFSET;
  }

  // ---- The two programs --------------------------------------------------------------------

  /** Multiplication of unsigned 64-bit words. */
  function WrappingMul(a: nat, b: nat): nat {
    (a * b) % TWO_64
  }

  method Fnv64(data: Bytes) returns (h: nat)
    ensures h == Hash(FNV_OFFSET, data) && h < TWO_64
  {
    hide Xor;
    h := FNV_OFFSET;
    for i := 0 to |data|
      invariant h == Hash(FNV_OFFSET, data[..i]) && h < TWO_64
    {
      assert data[..i + 1][..i] == data[..i];
      h := Xor(h, data[i]);
      h := WrappingMul(h, FNV_PRIME);
    }
    assert data[..|data|] == data;
  }

  /** Bitwise and of unbounded integers. */
  function And(a: nat, b: nat): nat {
    if a == 0 then 0 else 2 * And(a / 2, b / 2) + (a % 2) * (b % 2)
  }

  lemma ModHalves(a: nat, half: nat)
    requires half > 0
    ensures a % (2 * half) == 2 * ((a / 2) % half) + a % 2
  {
    var q, r := (a / 2) / half, (a / 2) % half;
    assert a / 2 == half * q + r;
    assert (2 * half) * q == 2 * (half * q);
    DivModUnique(a, 2 * half, q, 2 * r + a % 2);
  }

  lemma AndOdd(a: nat, b: nat)
    ensures And(a, 2 * b + 1) == 2 * And(a / 2, b) + a % 2
  {
    assert (2 * b + 1) / 2 == b && (2 * b + 1) % 2 == 1;
  }

  /** Masking the low bits is reduction modulo a power of two. */
  lemma {:induction false} AndMask(a: nat, k: nat)
    ensures PowerOfTwo(k) >= 1 && And(a, PowerOfTwo(k) - 1) == a % PowerOfTwo(k)
    decreases k
  {
    if k == 0 {
      AndZero(a);
    } else {
      var half := PowerOfTwo(k - 1);
      assert PowerOfTwo(k) == 2 * half;
      AndMask(a / 2, k - 1);
      ModHalves(a, half);
      AndOdd(a, half - 1);
      hide *;
      assert 2 * (half - 1) + 1 == 2 * half - 1;
    }
  }

  lemma {:induction false} AndZero(a: nat)
    ensures And(a, 0) == 0
  {
    if a != 0 {
      AndZero(a / 2);
    }
  }

  /** The masked form over unbounded integers. */
  method Fnv1a(data: Bytes) returns (h: nat)
    ensures h == Hash(FNV_OFFSET, data)
  {
    hide Xor, And, PowerOfTwo;
    h := FNV_OFFSET;
    for i := 0 to |data|
      invariant h == Hash(FNV_OFFSET, data[..i])
    {
      assert data[..i + 1][..i] == data[..i];
      h := Xor(h, data[i]);
      MaskIs64Bits();
      AndMask(h * FNV_PRIME, 64);
      h := And(h * FNV_PRIME, MASK_64);
    }
    assert data[..|data|] == data;
  }

  lemma MaskIs64Bits()
    ensures PowerOfTwo(64) == TWO_64 && MASK_64 == TWO_64 - 1
  {
    SixtyThreeBits();
    assert PowerOfTwo(64) == 2 * PowerOfTwo(63);
  }

  // ---- From row ids to shard files ---------------------------------------------------------

  const ROWS_PER_SHARD: nat := 2_500_012
  const WIDTH: nat := 160
  const TOTAL_ROWS: nat := 320_001_536

  ghost predicate FullShards(shards: seq<Bytes>, size: nat) {
    forall s :: 0 <= s < |shards| ==> |shards[s]| == size
  }

  function Offset(s: nat, size: nat): nat {
    s * size
  }

  lemma OffsetStep(s: nat, size: nat)
    ensures Offset(0, size) == 0 && Offset(s + 1, size) == Offset(s, size) + size
  {
  }

  /** Bytes of shard s sit in the flat table at s shard sizes in. */
  lemma {:induction false} FlatSlice(shards: seq<Bytes>, size: nat, s: nat, off: nat, len: nat)
    requires FullShards(shards, size) && s < |shards| && off + len <= size
    ensures Offset(s, size) + off + len <= |Flat(shards)| == Offset(|shards|, size)
    ensures Flat(shards)[Offset(s, size) + off..Offset(s, size) + off + len] == shards[s][off..off + len]
  {
    var front, last := shards[..|shards| - 1], shards[|shards| - 1];
    FlatLength(shards, size);
    FlatLength(front, size);
    OffsetStep(|shards| - 1, size);
    hide Offset;
    var at := Offset(s, size) + off;
    if s < |shards| - 1 {
      FlatSlice(front, size, s, off, len);
      SliceOfFront(Flat(front), last, at, at + len);
    } else {
      SliceOfBack(Flat(front), last, off, off + len);
    }
  }

  lemma SliceOfFront(a: seq<nat>, b: seq<nat>, i: nat, j: nat)
    requires i <= j <= |a|
    ensures (a + b)[i..j] == a[i..j]
  {
  }

  lemma SliceOfBack(a: seq<nat>, b: seq<nat>, i: nat, j: nat)
    requires i <= j <= |b|
    ensures (a + b)[|a| + i..|a| + j] == b[i..j]
  {
  }

  /** Shard and offset of a row land on its place in the flat table. */
  lemma RowPlace(k: nat, perShard: nat, width: nat)
    requires perShard > 0 && width > 0
    ensures (k % perShard) * width + width <= perShard * width
    ensures (k / perShard) * (perShard * width) + (k % perShard) * width == k * width
  {
    var s, o := k / perShard, k % perShard;
    assert k == perShard * s + o;
    assert (o + 1) * width <= perShard * width by {
      MonotoneProduct(o + 1, perShard, width, width);
    }
    calc {
      s * (perShard * width) + o * width;
      (s * perShard + o) * width;
      k * width;
    }
  }

  function RowsOf(table: seq<nat>, keys: seq<nat>): seq<nat>
    requires forall i :: 0 <= i < |keys| ==> keys[i] < TOTAL_ROWS
    requires |table| == TOTAL_ROWS * WIDTH
  {
    if keys == [] then []
    else
      RowsOf(table, keys[..|keys| - 1]) +
      table[keys[|keys| - 1] * WIDTH..keys[|keys| - 1] * WIDTH + WIDTH]
  }

  /** Reading every sampled row from its shard file gives its bytes of the flat table, in order. */
  method ReadRows(shards: seq<Bytes>, keys: seq<nat>) returns (out: seq<nat>)
    requires |shards| == TOTAL_ROWS / ROWS_PER_SHARD && FullShards(shards, ROWS_PER_SHARD * WIDTH)
    requires forall i :: 0 <= i < |keys| ==> keys[i] < TOTAL_ROWS
    ensures |Flat(shards)| == TOTAL_ROWS * WIDTH && out == RowsOf(Flat(shards), keys)
  {
    hide Flat;
    FlatLength(shards, ROWS_PER_SHARD * WIDTH);
    out := [];
    for i := 0 to |keys|
      invariant out == RowsOf(Flat(shards), keys[..i])
    {
      assert keys[..i + 1][..i] == keys[..i];
      var shard, off := keys[i] / ROWS_PER_SHARD, (keys[i] % ROWS_PER_SHARD) * WIDTH;
      RowPlace(keys[i], ROWS_PER_SHARD, WIDTH);
      FlatSlice(shards, ROWS_PER_SHARD * WIDTH, shard, off, WIDTH);
      out := out + shards[shard][off..off + WIDTH];
    }
    assert keys[..|keys|] == keys;
  }
}

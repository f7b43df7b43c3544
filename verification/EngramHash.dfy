/** What an engram row id is: the reference hash over the whole cached sequence, and the form the
    serving engine computes from a request's short history and the live batch. */
module EngramHash {
  import opened Wrappers
  import opened HashArithmetic

  const DEAD: int := -1

  /** n: largest n-gram. tokenMap: raw id to compressed id. image: the image token, when the model has
      one; raw ids from shift on are image placeholders. One multiplier row and one list of bucket
      sizes per n-gram size, for each engram layer. */
  datatype Config = Config(n: nat, padId: int, tokenMap: int -> int, image: Option<int>, shift: int,
                           multipliers: seq<seq<int>>, primes: seq<seq<seq<int>>>)

  ghost predicate ValidConfig(c: Config) {
    c.n >= 2 && |c.multipliers| == |c.primes| &&
    (forall l :: 0 <= l < |c.primes| ==>
      |c.multipliers[l]| == c.n && |c.primes[l]| == c.n - 1 && Sizes(c.primes[l])) &&
    forall t :: c.tokenMap(t) >= 0
  }

  function LayerIds(c: Config, window: seq<int>): (ids: seq<seq<int>>)
    requires ValidConfig(c) && |window| == c.n
    ensures |ids| == |c.primes|
  {
    seq(|c.primes|, l requires 0 <= l < |c.primes| => RowIds(window, c.multipliers[l], c.primes[l]))
  }

  /** Image placeholders are read as the image token. */
  function Mask(c: Config, t: int): int {
    if c.image.Some? && t >= c.shift then c.image.value else t
  }

  predicate IsImage(c: Config, t: int) {
    c.image.Some? && Mask(c, t) == c.image.value
  }

  // ---- The reference -----------------------------------------------------------------------

  /** What the reference caches for a raw token. */
  function Cached(c: Config, t: int): int {
    if IsImage(c, t) then DEAD else c.tokenMap(t)
  }

  function CachedAll(c: Config, tokens: seq<int>): (row: seq<int>)
    ensures |row| == |tokens|
  {
    seq(|tokens|, i requires 0 <= i < |tokens| => Cached(c, tokens[i]))
  }

  function ClampMin(x: int): nat { if x < 0 then 0 else x }

  /** blocked after the given shift: off the start, or a dead token met on the way. */
  function RefBlocked(row: seq<int>, p: nat, shift: nat): bool
    requires p < |row|
  {
    (shift > 0 && RefBlocked(row, p, shift - 1)) || p < shift || row[ClampMin(p - shift)] == DEAD
  }

  function RefWindow(c: Config, row: seq<int>, p: nat): (w: seq<int>)
    requires p < |row|
    ensures |w| == c.n
  {
    seq(c.n, s requires 0 <= s < c.n => if RefBlocked(row, p, s) then c.padId else row[ClampMin(p - s)])
  }

  /** The ids of position p of a raw token sequence. */
  function ReferenceIds(c: Config, tokens: seq<int>, p: nat): seq<seq<int>>
    requires ValidConfig(c) && p < |tokens|
  {
    LayerIds(c, RefWindow(c, CachedAll(c, tokens), p))
  }

  /** The token is an image's: the image token itself, or one of the placeholders from shift on. */
  ghost predicate OfImage(c: Config, t: int) {
    c.image.Some? && (t >= c.shift || t == c.image.value)
  }

  /** Look-back s of position p stays in the sequence and meets no image on the way, itself included. */
  ghost predicate Visible(c: Config, tokens: seq<int>, p: nat, s: nat)
    requires p < |tokens|
  {
    s <= p && forall k :: p - s <= k <= p ==> !OfImage(c, tokens[k])
  }

  ghost predicate IsWindow(c: Config, tokens: seq<int>, p: nat, w: seq<int>)
    requires p < |tokens|
  {
    |w| == c.n && forall s: nat :: s < c.n ==>
      w[s] == if Visible(c, tokens, p, s) then c.tokenMap(tokens[p - s]) else c.padId
  }

  lemma {:induction false} BlockedIsHidden(c: Config, tokens: seq<int>, p: nat, s: nat)
    requires p < |tokens| && forall t :: c.tokenMap(t) >= 0
    ensures RefBlocked(CachedAll(c, tokens), p, s) <==> !Visible(c, tokens, p, s)
    decreases s
  {
    if s > 0 {
      BlockedIsHidden(c, tokens, p, s - 1);
    }
    if s <= p {
      assert OfImage(c, tokens[p - s]) <==> CachedAll(c, tokens)[p - s] == DEAD;
    }
  }

  /** The window of a position: what it sees of its own past, compressed, and padding beyond. */
  lemma RefWindowMeaning(c: Config, tokens: seq<int>, p: nat)
    requires p < |tokens| && forall t :: c.tokenMap(t) >= 0
    ensures IsWindow(c, tokens, p, RefWindow(c, CachedAll(c, tokens), p))
  {
    hide RefBlocked;
    var row := CachedAll(c, tokens);
    forall s: nat | s < c.n
      ensures RefWindow(c, row, p)[s] == if Visible(c, tokens, p, s) then c.tokenMap(tokens[p - s]) else c.padId
    {
      BlockedIsHidden(c, tokens, p, s);
      if Visible(c, tokens, p, s) {
        SeenToken(c, tokens, p, s);
      }
    }
  }

  lemma SeenToken(c: Config, tokens: seq<int>, p: nat, s: nat)
    requires p < |tokens| && Visible(c, tokens, p, s)
    ensures s <= p && CachedAll(c, tokens)[p - s] == c.tokenMap(tokens[p - s])
  {
    assert !OfImage(c, tokens[p - s]);
  }

  /** Ids of a position, layer by layer and head by head: the hash of the window under the layer's multipliers,
      modulo the head's bucket, behind the buckets of the layer's earlier heads. */
  lemma ReferenceIdsMeaning(c: Config, tokens: seq<int>, p: nat, w: seq<int>, l: nat, vocab: int)
    requires ValidConfig(c) && p < |tokens| && l < |c.primes| && IsWindow(c, tokens, p, w)
    requires MapsInto(c, vocab) && Multipliers(c.multipliers[l], vocab)
    ensures |ReferenceIds(c, tokens, p)| == |c.primes| && Tokens(w, vocab)
    ensures IdsAreHashes(w, c.multipliers[l], c.primes[l], vocab, ReferenceIds(c, tokens, p)[l])
  {
    hide IdsAreHashes, RowIds, CachedAll, RefWindow, Visible;
    var v := RefWindow(c, CachedAll(c, tokens), p);
    RefWindowMeaning(c, tokens, p);
    assert w == v by {
      forall s | 0 <= s < c.n ensures w[s] == v[s] {
      }
    }
    RefWindowInVocabulary(c, tokens, p, vocab);
    RowIdsAreHashes(v, c.multipliers[l], c.primes[l], vocab);
  }

  /** Later tokens do not change a position's ids. */
  lemma {:induction false} BlockedStable(row: seq<int>, row': seq<int>, p: nat, s: nat)
    requires p < |row| && p < |row'| && row[..p + 1] == row'[..p + 1]
    ensures RefBlocked(row, p, s) == RefBlocked(row', p, s)
    decreases s
  {
    var k := ClampMin(p - s);
    assert row[k] == row[..p + 1][k] && row'[k] == row'[..p + 1][k];
    if s > 0 {
      BlockedStable(row, row', p, s - 1);
    }
  }

  lemma WindowStable(c: Config, row: seq<int>, row': seq<int>, p: nat)
    requires p < |row| && p < |row'| && row[..p + 1] == row'[..p + 1]
    ensures RefWindow(c, row, p) == RefWindow(c, row', p)
  {
    forall s | 0 <= s < c.n ensures RefWindow(c, row, p)[s] == RefWindow(c, row', p)[s] {
      BlockedStable(row, row', p, s);
      var k := ClampMin(p - s);
      assert row[k] == row[..p + 1][k] && row'[k] == row'[..p + 1][k];
    }
  }

  /** The reference module: a cache of compressed tokens per batch row, written in place. */
  class NgramHashState {
    const c: Config
    const cache: array2<int>

    constructor (c: Config, batch: nat, maxLen: nat)
      ensures this.c == c && cache.Length0 == batch && cache.Length1 == maxLen && fresh(cache)
    {
      this.c := c;
      var buffer := new int[batch, maxLen]((i, j) => 0);
      cache := buffer;
    }

    ghost function Row(b: nat, len: nat): (row: seq<int>)
      requires b < cache.Length0 && len <= cache.Length1
      reads cache
      ensures |row| == len
    {
      seq(len, i requires 0 <= i < len reads cache => cache[b, i])
    }

    /** Row b holds exactly the sequence processed so far. */
    ghost predicate Holds(b: nat, tokens: seq<int>)
      requires b < cache.Length0
      reads cache
    {
      |tokens| <= cache.Length1 && forall i :: 0 <= i < |tokens| ==> cache[b, i] == Cached(c, tokens[i])
    }

    /** The look-back loop for one position, accumulating blocked shift by shift. */
    method Window(b: nat, p: nat) returns (w: seq<int>)
      requires b < cache.Length0 && p < cache.Length1
      ensures w == RefWindow(c, Row(b, p + 1), p)
    {
      w := [];
      var blocked := false;
      for shift := 0 to c.n
        invariant |w| == shift
        invariant blocked == (shift > 0 && RefBlocked(Row(b, p + 1), p, shift - 1))
        invariant forall s :: 0 <= s < shift ==> w[s] == RefWindow(c, Row(b, p + 1), p)[s]
      {
        var source := cache[b, ClampMin(p - shift)];
        blocked := blocked || p < shift || source == DEAD;
        w := w + [if blocked then c.padId else source];
      }
    }

    /** Rows other than b are as they were. */
    twostate predicate OtherRowsUnchanged(b: nat)
      reads cache
    {
      forall r, i :: 0 <= r < cache.Length0 && 0 <= i < cache.Length1 && r != b ==> cache[r, i] == old(cache[r, i])
    }

    method Store(b: nat, inputIds: seq<int>, startPos: nat, ghost before: seq<int>)
      requires b < cache.Length0
      requires startPos == |before| && startPos + |inputIds| <= cache.Length1 && Holds(b, before)
      modifies cache
      ensures Holds(b, before + inputIds) && OtherRowsUnchanged(b)
    {
      hide Cached;
      for i := 0 to |inputIds|
        invariant Holds(b, before + inputIds[..i]) && OtherRowsUnchanged(b)
      {
        cache[b, startPos + i] := Cached(c, inputIds[i]);
        assert before + inputIds[..i + 1] == before + inputIds[..i] + [inputIds[i]];
      }
      assert inputIds[..|inputIds|] == inputIds;
    }

    lemma PositionIds(b: nat, all: seq<int>, p: nat)
      requires b < cache.Length0 && Holds(b, all) && p < |all|
      ensures RefWindow(c, Row(b, p + 1), p) == RefWindow(c, CachedAll(c, all), p)
    {
      hide RefWindow;
      forall i | 0 <= i < p + 1 ensures Row(b, p + 1)[i] == CachedAll(c, all)[i] {
        assert cache[b, i] == Cached(c, all[i]);
      }
      assert Row(b, p + 1)[..p + 1] == CachedAll(c, all)[..p + 1];
      WindowStable(c, Row(b, p + 1), CachedAll(c, all), p);
    }

    /** One call: cache the piece at startPos, then hash every position of it. Whatever pieces a
        sequence arrives in, each position gets the ids of the whole sequence. */
    method Forward(b: nat, inputIds: seq<int>, startPos: nat, ghost before: seq<int>)
        returns (ids: seq<seq<seq<int>>>)
      requires ValidConfig(c) && b < cache.Length0
      requires startPos == |before| && startPos + |inputIds| <= cache.Length1 && Holds(b, before)
      modifies cache
      ensures Holds(b, before + inputIds) && OtherRowsUnchanged(b)
      ensures |ids| == |inputIds|
      ensures forall i :: 0 <= i < |inputIds| ==> ids[i] == ReferenceIds(c, before + inputIds, startPos + i)
    {
      hide RefWindow, LayerIds, CachedAll, Holds;
      ghost var all := before + inputIds;
      Store(b, inputIds, startPos, before);
      ids := [];
      for i := 0 to |inputIds|
        invariant |ids| == i && Holds(b, all) && OtherRowsUnchanged(b)
        invariant forall k :: 0 <= k < i ==> ids[k] == ReferenceIds(c, all, startPos + k)
      {
        var w := Window(b, startPos + i);
        PositionIds(b, all, startPos + i);
        ids := ids + [LayerIds(c, w)];
      }
    }
  }

  // ---- The serving form --------------------------------------------------------------------

  /** blocked of the torch path: positions only, or positions and images with a running maximum. */
  function Blocked(c: Config, h: seq<int>, q: nat, p: int, s: nat): bool
    requires s <= q < |h|
  {
    if c.image.None? then p < s
    else (s > 0 && Blocked(c, h, q, p, s - 1)) || p < s || Mask(c, h[q - s]) == c.image.value
  }

  /** Compressed look-backs of index q of h, for a token at position p. */
  function SlotWindow(c: Config, h: seq<int>, q: nat, p: int): (w: seq<int>)
    requires c.n - 1 <= q < |h|
    ensures |w| == c.n
  {
    seq(c.n, s requires 0 <= s < c.n => if Blocked(c, h, q, p, s) then c.padId else c.tokenMap(Mask(c, h[q - s])))
  }

  /** The j-th look-back from the last entry of h. */
  function FromEnd(c: Config, h: seq<int>, j: nat): int
    requires j < |h|
  {
    Mask(c, h[|h| - 1 - j])
  }

  /** The last n - 1 look-backs of row are those of tokens, as far as tokens reaches back. */
  ghost predicate Agrees(c: Config, row: seq<int>, tokens: seq<int>) {
    c.n >= 1 && |row| == c.n - 1 &&
    forall j :: 0 <= j < |row| && j < |tokens| ==> FromEnd(c, row, j) == FromEnd(c, tokens, j)
  }

  /** Look-backs across a history and the first k tokens of a run on top of it. */
  lemma LookBackAcross(c: Config, row: seq<int>, base: seq<int>, run: seq<int>, k: nat, j: nat)
    requires Agrees(c, row, base) && k <= |run| && j < c.n - 1 + k && j < |base| + k
    ensures FromEnd(c, row + run[..k], j) == FromEnd(c, base + run[..k], j)
  {
    var h, tokens := row + run[..k], base + run[..k];
    if j < k {
      assert h[|h| - 1 - j] == run[k - 1 - j] == tokens[|tokens| - 1 - j];
    } else {
      assert h[|h| - 1 - j] == row[|row| - 1 - (j - k)] && tokens[|tokens| - 1 - j] == base[|base| - 1 - (j - k)];
      assert FromEnd(c, row, j - k) == FromEnd(c, base, j - k);
    }
  }

  lemma {:induction false} BlockedAgrees(c: Config, h: seq<int>, tokens: seq<int>, s: nat)
    requires 1 <= c.n <= |h| && 1 <= |tokens| && s < c.n && forall t :: c.tokenMap(t) >= 0
    requires forall j :: 0 <= j < c.n && j < |tokens| ==> FromEnd(c, h, j) == FromEnd(c, tokens, j)
    ensures Blocked(c, h, |h| - 1, |tokens| - 1, s) == RefBlocked(CachedAll(c, tokens), |tokens| - 1, s)
  {
    if s > 0 {
      BlockedAgrees(c, h, tokens, s - 1);
    }
    if s < |tokens| {
      assert FromEnd(c, h, s) == FromEnd(c, tokens, s);
    }
  }

  /** Where the look-backs agree as far as the sequence reaches, the ids are the reference's: anything
      older in h is blocked and never read. */
  lemma WindowsAgree(c: Config, h: seq<int>, tokens: seq<int>)
    requires 1 <= c.n <= |h| && 1 <= |tokens| && forall t :: c.tokenMap(t) >= 0
    requires forall j :: 0 <= j < c.n && j < |tokens| ==> FromEnd(c, h, j) == FromEnd(c, tokens, j)
    ensures SlotWindow(c, h, |h| - 1, |tokens| - 1) == RefWindow(c, CachedAll(c, tokens), |tokens| - 1)
  {
    var q, p, row := |h| - 1, |tokens| - 1, CachedAll(c, tokens);
    forall s | 0 <= s < c.n ensures SlotWindow(c, h, q, p)[s] == RefWindow(c, row, p)[s] {
      BlockedAgrees(c, h, tokens, s);
      if s < |tokens| {
        assert FromEnd(c, h, s) == FromEnd(c, tokens, s);
      }
    }
  }

  /** A window never reads past its own index. */
  lemma {:induction false} BlockedPrefix(c: Config, h: seq<int>, q: nat, p: int, s: nat)
    requires s <= q < |h|
    ensures Blocked(c, h, q, p, s) == Blocked(c, h[..q + 1], q, p, s)
  {
    if s > 0 {
      BlockedPrefix(c, h, q, p, s - 1);
    }
  }

  lemma SlotWindowPrefix(c: Config, h: seq<int>, q: nat, p: int)
    requires c.n - 1 <= q < |h|
    ensures SlotWindow(c, h, q, p) == SlotWindow(c, h[..q + 1], q, p)
  {
    forall s | 0 <= s < c.n ensures SlotWindow(c, h, q, p)[s] == SlotWindow(c, h[..q + 1], q, p)[s] {
      BlockedPrefix(c, h, q, p, s);
    }
  }

  /** A run on top of an agreeing history: every token's ids are those of the full sequence. */
  lemma RunIdsCorrect(c: Config, row: seq<int>, base: seq<int>, run: seq<int>, o: nat)
    requires ValidConfig(c) && Agrees(c, row, base) && o < |run|
    ensures LayerIds(c, SlotWindow(c, row + run, c.n - 1 + o, |base| + o)) == ReferenceIds(c, base + run, |base| + o)
  {
    hide SlotWindow, RefWindow, LayerIds, FromEnd, Agrees;
    assert |row| == c.n - 1 by { AgreesLength(c, row, base); }
    var k := o + 1;
    var h, tokens := row + run[..k], base + run[..k];
    forall j | 0 <= j < c.n && j < |tokens| ensures FromEnd(c, h, j) == FromEnd(c, tokens, j) {
      LookBackAcross(c, row, base, run, k, j);
    }
    WindowsAgree(c, h, tokens);
    SlotWindowPrefix(c, row + run, c.n - 1 + o, |base| + o);
    assert (row + run)[..c.n + o] == h;
    assert CachedAll(c, tokens)[..|base| + o + 1] == CachedAll(c, base + run)[..|base| + o + 1];
    WindowStable(c, CachedAll(c, tokens), CachedAll(c, base + run), |base| + o);
  }

  lemma AgreesLength(c: Config, row: seq<int>, base: seq<int>)
    requires Agrees(c, row, base)
    ensures c.n >= 1 && |row| == c.n - 1
  {
  }

  /** The token map ends in the compressed vocabulary, and so does the padding token's id. */
  ghost predicate MapsInto(c: Config, vocab: int) {
    vocab - 1 <= MAX_LONG && 0 <= c.padId < vocab && forall t :: 0 <= c.tokenMap(t) < vocab
  }

  /** Windows of the reference hold compressed tokens only: dead ones are blocked. */
  lemma RefWindowInVocabulary(c: Config, tokens: seq<int>, p: nat, vocab: int)
    requires MapsInto(c, vocab) && p < |tokens|
    ensures Tokens(RefWindow(c, CachedAll(c, tokens), p), vocab)
  {
    var row := CachedAll(c, tokens);
    forall s | 0 <= s < c.n
      ensures 0 <= RefWindow(c, row, p)[s] < vocab && RefWindow(c, row, p)[s] <= MAX_LONG
    {
      assert RefBlocked(row, p, s) || row[ClampMin(p - s)] != DEAD;
    }
  }

  /** And so do those of the serving form. */
  lemma SlotWindowInVocabulary(c: Config, h: seq<int>, q: nat, p: int, vocab: int)
    requires MapsInto(c, vocab) && c.n - 1 <= q < |h|
    ensures Tokens(SlotWindow(c, h, q, p), vocab)
  {
  }

  /** So neither form ever overflows 64 bits, whatever tokens it is given. */
  lemma LayerHashesExactly(c: Config, h: seq<int>, q: nat, p: int, tokens: seq<int>, i: nat, layer: nat, vocab: int,
                           k: nat)
    requires ValidConfig(c) && MapsInto(c, vocab) && c.n - 1 <= q < |h| && i < |tokens| && layer < |c.multipliers|
    requires Multipliers(c.multipliers[layer], vocab) && 1 <= k <= c.n
    ensures var w, ms := RefWindow(c, CachedAll(c, tokens), i), c.multipliers[layer];
      Tokens(w, vocab) && MixedInt64(w, ms, k) == Mixed(w, ms, vocab, k)
    ensures var w, ms := SlotWindow(c, h, q, p), c.multipliers[layer];
      Tokens(w, vocab) && MixedInt64(w, ms, k) == Mixed(w, ms, vocab, k)
  {
    hide RefWindow, SlotWindow, MixedInt64, Mixed;
    RefWindowInVocabulary(c, tokens, i, vocab);
    SlotWindowInVocabulary(c, h, q, p, vocab);
    Int64HashIsExact(RefWindow(c, CachedAll(c, tokens), i), c.multipliers[layer], vocab, k);
    Int64HashIsExact(SlotWindow(c, h, q, p), c.multipliers[layer], vocab, k);
  }

  /** The row after accepting the first k tokens of a run. */
  function NextRow(c: Config, row: seq<int>, run: seq<int>, k: nat): (r: seq<int>)
    requires c.n >= 1 && |row| == c.n - 1 && k <= |run|
    ensures |r| == c.n - 1
  {
    (row + run)[k..k + c.n - 1]
  }

  function MaskAll(c: Config, row: seq<int>): (r: seq<int>)
    ensures |r| == |row|
  {
    seq(|row|, i requires 0 <= i < |row| => Mask(c, row[i]))
  }

  /** Shifting a run into the row keeps the row agreeing, masked or not. */
  lemma NextRowAgrees(c: Config, row: seq<int>, base: seq<int>, run: seq<int>, k: nat)
    requires Agrees(c, row, base) && k <= |run|
    ensures Agrees(c, NextRow(c, row, run, k), base + run[..k])
    ensures Agrees(c, MaskAll(c, NextRow(c, row, run, k)), base + run[..k])
  {
    var r, tokens, h := NextRow(c, row, run, k), base + run[..k], row + run[..k];
    assert r == h[k..];
    forall j | 0 <= j < |r| && j < |tokens|
      ensures FromEnd(c, r, j) == FromEnd(c, tokens, j) == FromEnd(c, MaskAll(c, r), j)
    {
      LookBackAcross(c, row, base, run, k, j);
      assert r[|r| - 1 - j] == h[|h| - 1 - j];
    }
  }
}

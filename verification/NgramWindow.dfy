/** N-gram look-back that stops at end-of-sequence tokens: the full-history form by running maximum, its
    meaning, and the cached-context form that processes a sequence piece by piece. */
module NgramWindow {
  import opened Wrappers
  import opened HashArithmetic

  // ---- The full-history form ---------------------------------------------------------------

  /** Running maximum of the positions of eos, -1 where there is none yet. */
  function PreviousEosInclusive(tokens: seq<int>, eos: int, i: nat): (p: int)
    requires i < |tokens|
  {
    var here := if tokens[i] == eos then i else -1;
    if i == 0 then here else Max(PreviousEosInclusive(tokens, eos, i - 1), here)
  }

  function PositionInSegment(tokens: seq<int>, eos: int, i: nat): int
    requires i < |tokens|
  {
    var previous := if i == 0 then -1 else PreviousEosInclusive(tokens, eos, i - 1);
    i - (previous + 1)
  }

  function ShiftRight(tokens: seq<int>, eos: int, shift: nat): (r: seq<int>)
    ensures |r| == |tokens|
  {
    if shift == 0 then tokens
    else seq(|tokens|, i requires 0 <= i < |tokens| => ShiftedAt(tokens, eos, shift, i))
  }

  function ShiftedAt(tokens: seq<int>, eos: int, shift: nat, i: nat): int
    requires i < |tokens|
  {
    var shifted := tokens[if i < shift then 0 else i - shift];
    if PositionInSegment(tokens, eos, i) >= shift && i - shift >= 0 then shifted else eos
  }

  // ---- What it means -----------------------------------------------------------------------

  /** No eos lies strictly between the token and its look-back, nor at the look-back itself. */
  predicate Clear(tokens: seq<int>, eos: int, i: nat, shift: nat)
    requires i < |tokens|
  {
    shift <= i && forall k :: i - shift <= k < i ==> tokens[k] != eos
  }

  function LookBack(tokens: seq<int>, eos: int, i: nat, shift: nat): int
    requires i < |tokens|
  {
    if Clear(tokens, eos, i, shift) then tokens[i - shift] else eos
  }

  lemma {:induction false} RunningMaximum(tokens: seq<int>, eos: int, i: nat)
    requires i < |tokens|
    ensures var p := PreviousEosInclusive(tokens, eos, i);
      -1 <= p <= i && (p >= 0 ==> tokens[p] == eos) && forall k :: p < k <= i ==> tokens[k] != eos
  {
    if i > 0 {
      RunningMaximum(tokens, eos, i - 1);
    }
  }

  /** The running-maximum form computes exactly the look-back. */
  lemma ShiftIsLookBack(tokens: seq<int>, eos: int, shift: nat, i: nat)
    requires i < |tokens|
    ensures ShiftRight(tokens, eos, shift)[i] == LookBack(tokens, eos, i, shift)
  {
    if shift > 0 && i > 0 {
      RunningMaximum(tokens, eos, i - 1);
      var p := PreviousEosInclusive(tokens, eos, i - 1);
      if shift <= i {
        assert PositionInSegment(tokens, eos, i) >= shift <==> p < i - shift;
        if p >= i - shift {
          assert tokens[p] == eos;
        }
      }
    }
  }

  /** All look-backs of position i. */
  function Window(tokens: seq<int>, eos: int, n: nat, i: nat): (w: seq<int>)
    requires i < |tokens|
    ensures |w| == n
  {
    seq(n, s requires 0 <= s < n => ShiftRight(tokens, eos, s)[i])
  }

  /** The same token k places back from i in a and from j in b. */
  predicate SameBack(a: seq<int>, i: nat, b: seq<int>, j: nat, k: nat) {
    k <= i < |a| && k <= j < |b| && a[i - k] == b[j - k]
  }

  /** A look-back only sees the tokens it crosses. */
  lemma LookBackLocal(a: seq<int>, i: nat, b: seq<int>, j: nat, eos: int, shift: nat)
    requires i < |a| && j < |b| && shift <= i && shift <= j
    requires forall k :: 0 <= k <= shift ==> SameBack(a, i, b, j, k)
    ensures LookBack(a, eos, i, shift) == LookBack(b, eos, j, shift)
  {
    assert SameBack(a, i, b, j, shift);
    forall k | j - shift <= k < j ensures b[k] == a[i - j + k] {
      assert SameBack(a, i, b, j, j - k);
    }
    if Clear(b, eos, j, shift) {
      forall k | i - shift <= k < i ensures a[k] != eos {
        assert SameBack(a, i, b, j, i - k);
      }
    }
  }

  /** Two positions preceded by the same n - 1 tokens have the same window. */
  lemma WindowLocal(a: seq<int>, i: nat, b: seq<int>, j: nat, eos: int, n: nat)
    requires n >= 1 && n - 1 <= i < |a| && n - 1 <= j < |b|
    requires forall k :: 0 <= k < n ==> SameBack(a, i, b, j, k)
    ensures Window(a, eos, n, i) == Window(b, eos, n, j)
  {
    hide ShiftRight, LookBack, SameBack;
    forall s | 0 <= s < n ensures Window(a, eos, n, i)[s] == Window(b, eos, n, j)[s] {
      ShiftIsLookBack(a, eos, s, i);
      ShiftIsLookBack(b, eos, s, j);
      LookBackLocal(a, i, b, j, eos, s);
    }
  }

  /** Hashing the n-wide window alone gives what the whole history gives. */
  lemma WindowAlone(tokens: seq<int>, eos: int, n: nat, i: nat)
    requires n >= 1 && n - 1 <= i < |tokens|
    ensures Window(tokens, eos, n, i) == Window(tokens[i - (n - 1)..i + 1], eos, n, n - 1)
  {
    hide Window;
    var w, j: nat := tokens[i - (n - 1)..i + 1], n - 1;
    assert forall k :: 0 <= k < n ==> SameBack(tokens, i, w, j, k);
    WindowLocal(tokens, i, w, j, eos, n);
  }

  /** And the window hides nothing: it is the look-backs, each cut off at the first eos behind it. */
  lemma WindowMeaning(tokens: seq<int>, eos: int, n: nat, i: nat, s: nat)
    requires i < |tokens| && s < n
    ensures Window(tokens, eos, n, i)[s] == LookBack(tokens, eos, i, s)
  {
    ShiftIsLookBack(tokens, eos, s, i);
  }

  // ---- One sequence, in pieces -------------------------------------------------------------

  function Eos(eos: int, n: nat): (s: seq<int>)
    ensures |s| == n
  {
    seq(n, i => eos)
  }

  /** Multipliers and bucket sizes of one layer. */
  datatype Table = Table(n: nat, eos: int, multipliers: seq<int>, blocks: seq<seq<int>>)

  ghost predicate ValidTable(t: Table) {
    t.n >= 2 && |t.multipliers| == t.n && |t.blocks| == t.n - 1 && Sizes(t.blocks)
  }

  function IdsAt(t: Table, history: seq<int>, i: nat): seq<int>
    requires ValidTable(t) && i < |history|
  {
    RowIds(Window(history, t.eos, t.n, i), t.multipliers, t.blocks)
  }

  /** The ids of position p of a sequence on its own. */
  function SequenceIds(t: Table, tokens: seq<int>, p: nat): seq<int>
    requires ValidTable(t) && p < |tokens|
  {
    IdsAt(t, Eos(t.eos, t.n - 1) + tokens, t.n - 1 + p)
  }

  /** The n - 1 tokens before the end of a sequence, eos where it is shorter. */
  function Context(t: Table, tokens: seq<int>): (k: seq<int>)
    requires t.n >= 1
    ensures |k| == t.n - 1
  {
    (Eos(t.eos, t.n - 1) + tokens)[|tokens|..]
  }

  /** Look-back s of position p in the padded history: eos where the sequence has no such token, or where an eos
      lies behind position p, and the token otherwise. */
  lemma PaddedLookBack(t: Table, tokens: seq<int>, p: nat, s: nat)
    requires t.n >= 1 && p < |tokens| && s < t.n
    ensures var w := Window(Eos(t.eos, t.n - 1) + tokens, t.eos, t.n, t.n - 1 + p);
      w[s] == if s <= p && forall k :: p - s <= k < p ==> tokens[k] != t.eos then tokens[p - s] else t.eos
  {
    hide LookBack, Clear, Window, Eos;
    var history, i := Eos(t.eos, t.n - 1) + tokens, t.n - 1 + p;
    WindowMeaning(history, t.eos, t.n, i, s);
    PaddedClear(t, tokens, p, s);
  }

  lemma PaddedClear(t: Table, tokens: seq<int>, p: nat, s: nat)
    requires t.n >= 1 && p < |tokens| && s < t.n
    ensures var history := Eos(t.eos, t.n - 1) + tokens;
      LookBack(history, t.eos, t.n - 1 + p, s)
        == if s <= p && forall k :: p - s <= k < p ==> tokens[k] != t.eos then tokens[p - s] else t.eos
  {
    if s <= p {
      ClearInside(t, tokens, p, s);
    } else {
      BlockedByPadding(t, tokens, p, s);
    }
  }

  lemma ClearInside(t: Table, tokens: seq<int>, p: nat, s: nat)
    requires t.n >= 1 && s <= p < |tokens| && s < t.n
    ensures var history := Eos(t.eos, t.n - 1) + tokens;
      history[t.n - 1 + p - s] == tokens[p - s] &&
      (Clear(history, t.eos, t.n - 1 + p, s) <==> forall k :: p - s <= k < p ==> tokens[k] != t.eos)
  {
    hide Eos;
    var history, i := Eos(t.eos, t.n - 1) + tokens, t.n - 1 + p;
    assert forall k :: 0 <= k < |tokens| ==> history[t.n - 1 + k] == tokens[k];
    if Clear(history, t.eos, i, s) {
      forall k | p - s <= k < p ensures tokens[k] != t.eos {
        assert history[t.n - 1 + k] != t.eos;
      }
    }
    if forall k :: p - s <= k < p ==> tokens[k] != t.eos {
      forall k | i - s <= k < i ensures history[k] != t.eos {
        assert history[k] == tokens[k - (t.n - 1)];
      }
    }
  }

  lemma BlockedByPadding(t: Table, tokens: seq<int>, p: nat, s: nat)
    requires t.n >= 1 && p < s && p < |tokens| && s < t.n
    ensures LookBack(Eos(t.eos, t.n - 1) + tokens, t.eos, t.n - 1 + p, s) == t.eos
  {
    var history, i := Eos(t.eos, t.n - 1) + tokens, t.n - 1 + p;
    assert history[t.n - 2] == t.eos && history[i - s] == t.eos;
  }

  /** Look-backs of a token stream are tokens of its vocabulary. */
  lemma WindowInVocabulary(tokens: seq<int>, eos: int, n: nat, i: nat, vocab: int)
    requires i < |tokens| && Tokens(tokens, vocab) && Tokens([eos], vocab)
    ensures Tokens(Window(tokens, eos, n, i), vocab)
  {
    hide LookBack, ShiftRight;
    assert [eos][0] == eos;
    var w := Window(tokens, eos, n, i);
    forall s | 0 <= s < n ensures 0 <= w[s] < vocab && w[s] <= MAX_LONG {
      ShiftIsLookBack(tokens, eos, s, i);
      LookBackIsToken(tokens, eos, i, s);
    }
  }

  lemma LookBackIsToken(tokens: seq<int>, eos: int, i: nat, shift: nat)
    requires i < |tokens|
    ensures var t := LookBack(tokens, eos, i, shift); t == eos || (shift <= i && t == tokens[i - shift])
  {
  }

  /** So no hash of any n-gram ending at any position of a token stream ever overflows 64 bits. */
  lemma SequenceHashesExactly(t: Table, tokens: seq<int>, vocab: int, p: nat, k: nat)
    requires ValidTable(t) && p < |tokens| && 1 <= k <= t.n
    requires Tokens(tokens, vocab) && Tokens([t.eos], vocab) && Multipliers(t.multipliers, vocab)
    ensures var w := Window(Eos(t.eos, t.n - 1) + tokens, t.eos, t.n, t.n - 1 + p);
      Tokens(w, vocab) && MixedInt64(w, t.multipliers, k) == Mixed(w, t.multipliers, vocab, k)
  {
    hide Window, MixedInt64, Mixed;
    var history := Eos(t.eos, t.n - 1) + tokens;
    assert [t.eos][0] == t.eos;
    WindowInVocabulary(history, t.eos, t.n, t.n - 1 + p, vocab);
    Int64HashIsExact(Window(history, t.eos, t.n, t.n - 1 + p), t.multipliers, vocab, k);
  }

  /** Ids of a position: for each n-gram size and head, the hash of the window, modulo the head's bucket, behind the
      buckets of earlier heads. */
  lemma SequenceIdsMeaning(t: Table, tokens: seq<int>, vocab: int, p: nat, w: seq<int>)
    requires ValidTable(t) && p < |tokens| && |w| == t.n
    requires Tokens(tokens, vocab) && Tokens([t.eos], vocab) && Multipliers(t.multipliers, vocab)
    requires forall s :: 0 <= s < t.n ==>
      w[s] == if s <= p && forall k :: p - s <= k < p ==> tokens[k] != t.eos then tokens[p - s] else t.eos
    ensures Tokens(w, vocab) && IdsAreHashes(w, t.multipliers, t.blocks, vocab, SequenceIds(t, tokens, p))
  {
    hide IdsAreHashes, RowIds, Window, MixedInt64, Mixed;
    var v := Window(Eos(t.eos, t.n - 1) + tokens, t.eos, t.n, t.n - 1 + p);
    assert w == v by {
      forall s | 0 <= s < t.n ensures w[s] == v[s] {
        PaddedLookBack(t, tokens, p, s);
      }
    }
    SequenceHashesExactly(t, tokens, vocab, p, 1);
    RowIdsAreHashes(v, t.multipliers, t.blocks, vocab);
  }

  /** A piece on top of the context alone gives the ids of the whole sequence. */
  lemma PieceIds(t: Table, before: seq<int>, piece: seq<int>, o: nat)
    requires ValidTable(t) && o < |piece|
    ensures IdsAt(t, Context(t, before) + piece, t.n - 1 + o) == SequenceIds(t, before + piece, |before| + o)
  {
    hide Window, RowIds, Eos;
    var e, i, j := Eos(t.eos, t.n - 1), t.n - 1 + o, t.n - 1 + |before| + o;
    var a, b := Context(t, before) + piece, e + (before + piece);
    assert b == (e + before) + piece;
    assert a == b[|before|..];
    assert forall k :: 0 <= k < t.n ==> SameBack(a, i, b, j, k);
    WindowLocal(a, i, b, j, t.eos, t.n);
  }

  /** The context moves along with the sequence. */
  lemma ContextAppend(t: Table, before: seq<int>, piece: seq<int>)
    requires t.n >= 1
    ensures (Context(t, before) + piece)[|piece|..] == Context(t, before + piece)
  {
    var e := Eos(t.eos, t.n - 1);
    assert Context(t, before) + piece == (e + (before + piece))[|before|..];
  }

  /** The last k columns. */
  function LastColumns(s: seq<int>, k: nat): (r: seq<int>)
    requires k <= |s|
    ensures |r| == k
  {
    s[|s| - k..]
  }

  /** Model cache slot for the token context: keeps the last columns of what it held and what it is given. */
  class TokenCache {
    var context: Option<seq<int>>

    constructor ()
      ensures context == None
    {
      context := None;
    }

    method Update(columns: seq<int>, size: nat)
      requires |columns| + (if context.Some? then |context.value| else 0) >= size
      modifies this
      ensures context == Some(LastColumns((if old(context).Some? then old(context).value else []) + columns, size))
    {
      context := Some(LastColumns((if context.Some? then context.value else []) + columns, size));
    }
  }

  /** The cache knows the sequence so far: nothing yet, or its context. */
  ghost predicate Knows(cache: TokenCache?, t: Table, before: seq<int>)
    requires t.n >= 1
    reads cache
  {
    if cache == null then before == []
    else cache.context == (if before == [] && cache.context.None? then None else Some(Context(t, before)))
  }

  /** One call of the embedding: ids of the piece from the cached context, which is then moved on. */
  method Forward(t: Table, inputIds: seq<int>, cache: TokenCache?, ghost before: seq<int>) returns (ids: seq<seq<int>>)
    requires ValidTable(t) && Knows(cache, t, before)
    modifies cache
    ensures |ids| == |inputIds|
    ensures forall o :: 0 <= o < |inputIds| ==> ids[o] == SequenceIds(t, before + inputIds, |before| + o)
    ensures cache != null ==> cache.context == Some(Context(t, before + inputIds))
  {
    hide IdsAt, SequenceIds, Context, Eos, LastColumns;
    var size := t.n - 1;
    var cached := cache != null && cache.context.Some?;
    var previous := if cached then cache.context.value else Eos(t.eos, size);
    EmptyContext(t);
    if cache != null {
      var toCache := inputIds;
      if !cached && |inputIds| < size {
        toCache := Eos(t.eos, size - |inputIds|) + inputIds;
      }
      ContextAppend(t, before, inputIds);
      LastColumnsOf(t, previous, inputIds);
      cache.Update(toCache, size);
    }
    var history := previous + inputIds;
    ids := [];
    for o := 0 to |inputIds|
      invariant |ids| == o
      invariant forall k :: 0 <= k < o ==> ids[k] == SequenceIds(t, before + inputIds, |before| + k)
      invariant cache != null ==> cache.context == Some(Context(t, before + inputIds))
    {
      PieceIds(t, before, inputIds, o);
      ids := ids + [IdsAt(t, history, t.n - 1 + o)];
    }
  }

  lemma EmptyContext(t: Table)
    requires t.n >= 1
    ensures Context(t, []) == Eos(t.eos, t.n - 1)
  {
  }

  lemma LastColumnsOf(t: Table, previous: seq<int>, piece: seq<int>)
    requires t.n >= 1 && |previous| == t.n - 1
    ensures LastColumns(previous + piece, t.n - 1) == (previous + piece)[|piece|..]
    ensures previous == Eos(t.eos, t.n - 1) && |piece| >= t.n - 1 ==>
      LastColumns([] + piece, t.n - 1) == (previous + piece)[|piece|..]
    ensures previous == Eos(t.eos, t.n - 1) && |piece| < t.n - 1 ==>
      LastColumns([] + (Eos(t.eos, t.n - 1 - |piece|) + piece), t.n - 1) == (previous + piece)[|piece|..]
  {
  }
}

/** The serving hasher: one history row of n - 1 raw tokens per request slot, a spare row for padding,
    and the runs of extend, decode, verify and commit that keep the rows right. */
module EngramHistory {
  import opened Wrappers
  import opened HashArithmetic
  import opened Sequences
  import opened Ragged
  import opened EngramHash

  /** starts and lens: where each request's run lies in the flat batch; supplied: predecessors the
      scheduler provides after a prefix hit or a retraction. */
  datatype Mode =
    | Decode
    | Verify(block: nat)
    | Extend(starts: seq<nat>, lens: seq<nat>, supplied: Option<seq<seq<int>>>)

  datatype Batch = Batch(mode: Mode, inputIds: seq<int>, positions: seq<int>, slots: seq<nat>,
                         outCacheLoc: Option<seq<int>>)

  ghost predicate BatchOk(c: Config, b: Batch, padRow: nat) {
    |b.positions| == |b.inputIds| && (forall r :: 0 <= r < |b.slots| ==> b.slots[r] < padRow) &&
    (b.outCacheLoc.Some? ==> |b.outCacheLoc.value| == |b.inputIds|) &&
    match b.mode
    case Decode => |b.inputIds| == |b.slots|
    case Verify(block) => |b.inputIds| == |b.slots| * block
    case Extend(starts, lens, supplied) =>
      |starts| == |lens| == |b.slots| && Sum(lens) <= |b.inputIds| &&
      (forall r :: 0 <= r < |lens| ==> starts[r] == Sum(lens[..r])) &&
      (supplied.Some? ==> RowsOk(c, supplied.value, |b.slots|))
  }

  ghost predicate RowsOk(c: Config, rows: seq<seq<int>>, count: nat) {
    c.n >= 1 && |rows| == count && forall r :: 0 <= r < count ==> |rows[r]| == c.n - 1
  }

  function Len(b: Batch, r: nat): nat
    requires b.mode.Extend? ==> r < |b.mode.lens|
  {
    match b.mode
    case Decode => 1
    case Verify(block) => block
    case Extend(_, lens, _) => lens[r]
  }

  function StartOf(b: Batch, r: nat): nat
    requires b.mode.Extend? ==> r < |b.mode.starts|
  {
    match b.mode
    case Decode => r
    case Verify(block) => r * block
    case Extend(starts, _, _) => starts[r]
  }

  /** Row of a token; the mode fixes how it is found. */
  function RowOf(b: Batch, t: nat): nat
    requires t < NumReal(b)
    requires b.mode.Verify? ==> b.mode.block > 0
  {
    match b.mode
    case Decode => t
    case Verify(block) => t / block
    case Extend(_, lens, _) => RepeatInterleave(lens)[t]
  }

  function NumReal(b: Batch): nat {
    if b.mode.Extend? then |RepeatInterleave(b.mode.lens)| else |b.inputIds|
  }

  // ---- Where tokens lie --------------------------------------------------------------------

  /** Every position of a request's run is a real token, found in that request's row. */
  lemma TokenPlace(c: Config, b: Batch, padRow: nat, r: nat, o: nat)
    requires BatchOk(c, b, padRow) && r < |b.slots| && o < Len(b, r)
    ensures StartOf(b, r) + o < NumReal(b) <= |b.inputIds| && RowOf(b, StartOf(b, r) + o) == r
  {
    match b.mode
    case Decode =>
    case Verify(block) =>
      BlockIndex(r, block, o, |b.slots|);
    case Extend(starts, lens, _) =>
      RepeatInterleaveAt(lens, r, o);
  }

  function RunOf(b: Batch, r: nat): seq<int>
    requires b.mode.Extend? ==> r < |b.mode.starts| && r < |b.mode.lens|
    requires StartOf(b, r) + Len(b, r) <= |b.inputIds|
  {
    b.inputIds[StartOf(b, r)..StartOf(b, r) + Len(b, r)]
  }

  /** Every token of the batch that is not graph padding is some request's. */
  lemma EveryTokenOwned(c: Config, b: Batch, padRow: nat, t: nat) returns (r: nat, o: nat)
    requires BatchOk(c, b, padRow) && t < |b.inputIds| && (b.mode.Extend? ==> t < Sum(b.mode.lens))
    ensures r < |b.slots| && o < Len(b, r) && t == StartOf(b, r) + o
  {
    match b.mode
    case Decode => r, o := t, 0;
    case Verify(block) =>
      BlockRow(t, block, |b.slots|);
      r, o := t / block, t % block;
      assert t == block * (t / block) + t % block;
    case Extend(starts, lens, _) => r, o := OwnerOf(lens, t);
  }

  lemma RunFits(c: Config, b: Batch, padRow: nat, r: nat)
    requires BatchOk(c, b, padRow) && r < |b.slots|
    ensures StartOf(b, r) + Len(b, r) <= |b.inputIds|
  {
    if b.mode.Extend? {
      SumPrefix(b.mode.lens, r);
    } else if b.mode.Verify? {
      MonotoneProduct(r + 1, |b.slots|, b.mode.block, b.mode.block);
      NextMultiple(r, b.mode.block);
    }
  }

  // ---- One batch ---------------------------------------------------------------------------

  function Clamp(x: int, lo: int, hi: int): int
    requires lo <= hi
    ensures lo <= Clamp(x, lo, hi) <= hi
  {
    if x < lo then lo else if x > hi then hi else x
  }

  function Reverse<T>(s: seq<T>): (r: seq<T>)
    ensures |r| == |s|
  {
    seq(|s|, i requires 0 <= i < |s| => s[|s| - 1 - i])
  }

  /** Predecessor table of one token, before image masking: from the batch while the look-back stays in
      the run, from the history row beyond it. */
  function Predecessors(c: Config, b: Batch, history: seq<seq<int>>, padRow: nat, t: nat): (w: seq<int>)
    requires BatchOk(c, b, padRow) && c.n >= 2 && RowsOk(c, history, |b.slots|)
    requires t < |b.inputIds| && (b.mode.Verify? ==> b.mode.block > 0)
    requires t < NumReal(b) ==> RowOf(b, t) < |b.slots|
    ensures |w| == c.n
  {
    if t >= NumReal(b) then seq(c.n, s => 0)
    else if b.mode.Decode? then [b.inputIds[t]] + Reverse(history[t])
    else
      var r := RowOf(b, t);
      var offset := t - StartOf(b, r);
      seq(c.n, s requires 0 <= s < c.n =>
        if s <= offset then b.inputIds[ClampIndex(t - s, |b.inputIds|)]
        else history[r][Clamp(c.n - 2 - (s - offset - 1), 0, c.n - 2)])
  }

  function ClampIndex(x: int, len: nat): (i: nat)
    requires len > 0
    ensures i < len
  {
    Clamp(x, 0, len - 1)
  }

  /** Look-backs of index q of h, image-masked. */
  function LookBacks(c: Config, h: seq<int>, q: nat): (w: seq<int>)
    requires c.n - 1 <= q < |h|
    ensures |w| == c.n
  {
    seq(c.n, s requires 0 <= s < c.n => Mask(c, h[q - s]))
  }

  lemma PredecessorsAreLookBacks(c: Config, b: Batch, history: seq<seq<int>>, padRow: nat, r: nat, o: nat)
    requires BatchOk(c, b, padRow) && c.n >= 2 && RowsOk(c, history, |b.slots|)
    requires r < |b.slots| && o < Len(b, r) && (b.mode.Verify? ==> b.mode.block > 0)
    ensures StartOf(b, r) + o < NumReal(b) <= |b.inputIds| && RowOf(b, StartOf(b, r) + o) == r
    ensures StartOf(b, r) + Len(b, r) <= |b.inputIds|
    ensures MaskAll(c, Predecessors(c, b, history, padRow, StartOf(b, r) + o))
         == LookBacks(c, history[r] + RunOf(b, r), c.n - 1 + o)
  {
    hide RowOf, NumReal, StartOf, Len, Mask;
    TokenPlace(c, b, padRow, r, o);
    RunFits(c, b, padRow, r);
    var w, h := Predecessors(c, b, history, padRow, StartOf(b, r) + o), history[r] + RunOf(b, r);
    if b.mode.Decode? {
      DecodePlace(b, r);
      DecodeLookBacks(c, history[r], b.inputIds[r]);
      assert o == 0 && RunOf(b, r) == [b.inputIds[r]];
    } else {
      forall s | 0 <= s < c.n ensures w[s] == h[c.n - 1 + o - s] {
        RunPredecessor(c, b, history, padRow, r, o, s);
      }
    }
  }

  lemma DecodeLookBacks(c: Config, row: seq<int>, token: int)
    requires c.n >= 1 && |row| == c.n - 1
    ensures forall s :: 0 <= s < c.n ==> ([token] + Reverse(row))[s] == (row + [token])[c.n - 1 - s]
  {
  }

  /** One predecessor in a run: from the batch while the look-back stays in the run, from the row beyond it. */
  lemma RunPredecessor(c: Config, b: Batch, history: seq<seq<int>>, padRow: nat, r: nat, o: nat, s: nat)
    requires BatchOk(c, b, padRow) && c.n >= 2 && RowsOk(c, history, |b.slots|)
    requires r < |b.slots| && o < Len(b, r) && !b.mode.Decode? && s < c.n
    requires b.mode.Verify? ==> b.mode.block > 0
    requires StartOf(b, r) + o < NumReal(b) <= |b.inputIds| && RowOf(b, StartOf(b, r) + o) == r
    requires StartOf(b, r) + Len(b, r) <= |b.inputIds|
    ensures Predecessors(c, b, history, padRow, StartOf(b, r) + o)[s]
         == (history[r] + RunOf(b, r))[c.n - 1 + o - s]
  {
    hide RowOf, NumReal, StartOf, Len;
    var t := StartOf(b, r) + o;
    var w := Predecessors(c, b, history, padRow, t);
    if s <= o {
      assert w[s] == b.inputIds[ClampIndex(t - s, |b.inputIds|)] && ClampIndex(t - s, |b.inputIds|) == t - s;
      assert RunOf(b, r)[o - s] == b.inputIds[t - s];
    } else {
      assert w[s] == history[r][Clamp(c.n - 2 - (s - o - 1), 0, c.n - 2)];
    }
  }

  lemma DecodePlace(b: Batch, r: nat)
    requires b.mode.Decode?
    ensures StartOf(b, r) == r
    ensures Len(b, r) == 1 && NumReal(b) == |b.inputIds| && (r < |b.inputIds| ==> RowOf(b, r) == r)
  {
  }

  /** blocked of one token from its masked predecessors. */
  function BlockedIn(c: Config, w: seq<int>, p: int, s: nat): bool
    requires s < |w|
  {
    if c.image.None? then p < s
    else (s > 0 && BlockedIn(c, w, p, s - 1)) || p < s || w[s] == c.image.value
  }

  function Compressed(c: Config, w: seq<int>, p: int, inRun: bool): (k: seq<int>)
    requires |w| == c.n
    ensures |k| == c.n
  {
    seq(c.n, s requires 0 <= s < c.n => if !inRun || BlockedIn(c, w, p, s) then c.padId else c.tokenMap(w[s]))
  }

  lemma {:induction false} BlockedInLookBacks(c: Config, h: seq<int>, q: nat, p: int, s: nat)
    requires c.n - 1 <= q < |h| && s < c.n
    ensures BlockedIn(c, LookBacks(c, h, q), p, s) == Blocked(c, h, q, p, s)
  {
    if s > 0 {
      BlockedInLookBacks(c, h, q, p, s - 1);
    }
  }

  lemma CompressedLookBacks(c: Config, h: seq<int>, q: nat, p: int)
    requires c.n - 1 <= q < |h|
    ensures Compressed(c, LookBacks(c, h, q), p, true) == SlotWindow(c, h, q, p)
  {
    forall s | 0 <= s < c.n ensures Compressed(c, LookBacks(c, h, q), p, true)[s] == SlotWindow(c, h, q, p)[s] {
      BlockedInLookBacks(c, h, q, p, s);
    }
  }

  /** Ids and masked predecessors of token o of request r are those of the run on top of its history. */
  ghost predicate TokenServed(c: Config, b: Batch, history: seq<seq<int>>, padRow: nat,
                              ids: seq<seq<seq<int>>>, r: nat, o: nat)
    requires ValidConfig(c) && BatchOk(c, b, padRow) && RowsOk(c, history, |b.slots|)
    requires r < |b.slots| && o < Len(b, r) && |ids| == |b.inputIds|
  {
    TokenPlace(c, b, padRow, r, o);
    RunFits(c, b, padRow, r);
    ids[StartOf(b, r) + o]
      == LayerIds(c, SlotWindow(c, history[r] + RunOf(b, r), c.n - 1 + o, b.positions[StartOf(b, r) + o]))
  }

  /** Graph padding is hashed as nothing but padding. */
  ghost predicate PaddingServed(c: Config, b: Batch, ids: seq<seq<seq<int>>>)
    requires ValidConfig(c) && |ids| == |b.inputIds|
  {
    b.mode.Extend? ==> forall t :: Sum(b.mode.lens) <= t < |ids| ==> ids[t] == LayerIds(c, seq(c.n, s => c.padId))
  }

  ghost predicate AllServed(c: Config, b: Batch, history: seq<seq<int>>, padRow: nat, ids: seq<seq<seq<int>>>)
    requires ValidConfig(c) && BatchOk(c, b, padRow) && RowsOk(c, history, |b.slots|) && |ids| == |b.inputIds|
  {
    forall r, o :: 0 <= r < |b.slots| && 0 <= o < Len(b, r) ==> TokenServed(c, b, history, padRow, ids, r, o)
  }

  /** Row the end of request r is committed to; padded rows go to the spare row. */
  function Target(b: Batch, padRow: nat, r: nat): nat
    requires r < |b.slots| && (b.mode.Extend? ==> |b.mode.lens| == |b.mode.starts| == |b.slots|)
    requires b.outCacheLoc.Some? ==> |b.outCacheLoc.value| == |b.inputIds|
    requires b.mode.Decode? ==> |b.inputIds| == |b.slots|
  {
    var row := if b.mode.Extend? && b.mode.lens[r] == 0 then padRow else b.slots[r];
    if b.mode.Verify? || |b.inputIds| == 0 then padRow
    else if b.outCacheLoc.Some? && b.outCacheLoc.value[CommitLast(b, r)] == 0 then padRow
    else row
  }

  function CommitLast(b: Batch, r: nat): (t: nat)
    requires r < |b.slots| && (b.mode.Extend? ==> |b.mode.lens| == |b.mode.starts| == |b.slots|)
    requires |b.inputIds| > 0 && (b.mode.Decode? ==> |b.inputIds| == |b.slots|)
    ensures t < |b.inputIds|
  {
    if b.mode.Extend? then
      var end: int := b.mode.starts[r] + b.mode.lens[r];
      ClampIndex(end - 1, |b.inputIds|)
    else if b.mode.Decode? then r
    else 0
  }

  /** Requests whose history moves on in this batch: decode rows, and extend rows with tokens, unless the cache
      entry of their last token is the padding entry 0. Verify blocks wait for their acceptance. */
  ghost predicate Commits(c: Config, b: Batch, padRow: nat, r: nat)
    requires BatchOk(c, b, padRow) && r < |b.slots|
  {
    RunFits(c, b, padRow, r);
    match b.mode
    case Decode => b.outCacheLoc.Some? ==> b.outCacheLoc.value[r] != 0
    case Verify(_) => false
    case Extend(starts, lens, _) =>
      lens[r] > 0 && (b.outCacheLoc.Some? ==> b.outCacheLoc.value[starts[r] + lens[r] - 1] != 0)
  }

  /** The commit goes to the slot of exactly these requests, and to the spare row for all others. */
  lemma TargetIs(c: Config, b: Batch, padRow: nat, r: nat)
    requires BatchOk(c, b, padRow) && r < |b.slots|
    ensures Target(b, padRow, r) == if Commits(c, b, padRow, r) then b.slots[r] else padRow
    ensures b.slots[r] < padRow
  {
    RunFits(c, b, padRow, r);
  }

  ghost predicate DistinctTargets(c: Config, b: Batch, padRow: nat)
    requires BatchOk(c, b, padRow)
  {
    forall r, r' :: 0 <= r < r' < |b.slots| && Commits(c, b, padRow, r) && Commits(c, b, padRow, r') ==>
      b.slots[r] != b.slots[r']
  }

  /** The row a run leaves behind. */
  function EndRow(c: Config, b: Batch, history: seq<seq<int>>, padRow: nat, r: nat): (row: seq<int>)
    requires BatchOk(c, b, padRow) && RowsOk(c, history, |b.slots|) && r < |b.slots|
    ensures |row| == c.n - 1 && StartOf(b, r) + Len(b, r) <= |b.inputIds|
    ensures forall i :: 0 <= i < c.n - 1 ==> row[i] == Mask(c, (history[r] + RunOf(b, r))[Len(b, r) + i])
  {
    RunFits(c, b, padRow, r);
    MaskAll(c, NextRow(c, history[r], RunOf(b, r), Len(b, r)))
  }

  /** after is before with every committing request's row replaced; only the spare row is free. */
  ghost predicate Committed(c: Config, b: Batch, history: seq<seq<int>>, before: seq<seq<int>>, after: seq<seq<int>>,
                            padRow: nat, upTo: nat)
    requires BatchOk(c, b, padRow) && RowsOk(c, history, |b.slots|) && upTo <= |b.slots|
  {
    RowsOk(c, before, padRow + 1) && RowsOk(c, after, padRow + 1) &&
    (forall r :: 0 <= r < upTo && Commits(c, b, padRow, r) ==>
      after[b.slots[r]] == EndRow(c, b, history, padRow, r)) &&
    forall slot :: 0 <= slot < padRow && (forall r :: 0 <= r < upTo && Commits(c, b, padRow, r) ==> b.slots[r] != slot)
      ==> after[slot] == before[slot]
  }

  /** History rows a batch reads: the scheduler's when supplied, else the slots'. */
  function HistoryRows(b: Batch, rows: seq<seq<int>>): seq<seq<int>>
    requires forall r :: 0 <= r < |b.slots| ==> b.slots[r] < |rows|
  {
    if b.mode.Extend? && b.mode.supplied.Some? then b.mode.supplied.value
    else seq(|b.slots|, r requires 0 <= r < |b.slots| => rows[b.slots[r]])
  }

  lemma HistoryRowsOk(c: Config, b: Batch, rows: seq<seq<int>>, padRow: nat)
    requires BatchOk(c, b, padRow) && RowsOk(c, rows, padRow + 1)
    ensures RowsOk(c, HistoryRows(b, rows), |b.slots|)
  {
  }

  class EngramHasher {
    const c: Config
    const padRow: nat
    const history: array<seq<int>>

    ghost predicate Valid()
      reads history
    {
      ValidConfig(c) && history.Length == padRow + 1 && RowsOk(c, history[..], padRow + 1)
    }

    /** Zeroed rows, one per slot and one spare. */
    constructor (c: Config, numReqSlots: nat)
      requires ValidConfig(c)
      ensures Valid() && this.c == c && padRow == numReqSlots && fresh(history)
    {
      this.c := c;
      padRow := numReqSlots;
      history := new seq<int>[numReqSlots + 1](i => seq(if c.n >= 1 then c.n - 1 else 0, j => 0));
    }

    /** Predecessor table and hash ids of every token. */
    method TorchHashIds(b: Batch, rows: seq<seq<int>>) returns (ids: seq<seq<seq<int>>>, tokens: seq<seq<int>>)
      requires ValidConfig(c) && BatchOk(c, b, padRow) && RowsOk(c, rows, |b.slots|)
      ensures |ids| == |tokens| == |b.inputIds| && AllServed(c, b, rows, padRow, ids) && PaddingServed(c, b, ids)
      ensures forall t :: 0 <= t < |tokens| ==> |tokens[t]| == c.n
      ensures forall r, o :: 0 <= r < |b.slots| && 0 <= o < Len(b, r) ==> TokenKept(c, b, rows, padRow, tokens, r, o)
    {
      hide Predecessors, Compressed, LayerIds, RowOf, NumReal, TokenServed, TokenKept, Sum, RepeatInterleave;
      ids, tokens := [], [];
      for t := 0 to |b.inputIds|
        invariant |ids| == |tokens| == t
        invariant forall k :: 0 <= k < t ==> |tokens[k]| == c.n
        invariant forall k :: 0 <= k < t ==>
          RowKnown(c, b, padRow, rows, k) && tokens[k] == MaskAll(c, Predecessors(c, b, rows, padRow, k))
        invariant forall k :: 0 <= k < t ==>
          ids[k] == LayerIds(c, Compressed(c, tokens[k], b.positions[k], k < NumReal(b)))
      {
        PlaceOfToken(c, b, padRow, rows, t);
        var w := MaskAll(c, Predecessors(c, b, rows, padRow, t));
        tokens := tokens + [w];
        ids := ids + [LayerIds(c, Compressed(c, w, b.positions[t], t < NumReal(b)))];
      }
      PaddingIsPadding(c, b, tokens, ids);
      forall r, o | 0 <= r < |b.slots| && 0 <= o < Len(b, r)
        ensures TokenServed(c, b, rows, padRow, ids, r, o) && TokenKept(c, b, rows, padRow, tokens, r, o)
      {
        TableServes(c, b, rows, padRow, ids, tokens, r, o);
      }
    }

    /** One forward batch: hash every token, then commit the rows that are not padding. */
    method Forward(b: Batch) returns (ids: seq<seq<seq<int>>>)
      requires Valid() && BatchOk(c, b, padRow) && DistinctTargets(c, b, padRow)
      modifies history
      ensures Valid() && |ids| == |b.inputIds|
      ensures RowsOk(c, HistoryRows(b, old(history[..])), |b.slots|)
      ensures AllServed(c, b, HistoryRows(b, old(history[..])), padRow, ids) && PaddingServed(c, b, ids)
      ensures Committed(c, b, HistoryRows(b, old(history[..])), old(history[..]), history[..], padRow, |b.slots|)
    {
      ghost var before := history[..];
      var rows := HistoryRows(b, history[..]);
      HistoryRowsOk(c, b, before, padRow);
      if |b.inputIds| == 0 {
        NothingToServe(c, b, padRow);
        return [];
      }
      hide AllServed, TokenServed;
      var tokens;
      ids, tokens := TorchHashIds(b, rows);
      if !b.mode.Verify? {
        Commit(b, rows, tokens);
      }
    }

    method Commit(b: Batch, ghost rows: seq<seq<int>>, tokens: seq<seq<int>>)
      requires Valid() && BatchOk(c, b, padRow) && DistinctTargets(c, b, padRow) && RowsOk(c, rows, |b.slots|)
      requires |b.inputIds| > 0 && !b.mode.Verify?
      requires |tokens| == |b.inputIds| && forall t :: 0 <= t < |tokens| ==> |tokens[t]| == c.n
      requires forall r, o :: 0 <= r < |b.slots| && 0 <= o < Len(b, r) ==> TokenKept(c, b, rows, padRow, tokens, r, o)
      modifies history
      ensures Valid()
      ensures Committed(c, b, rows, old(history[..]), history[..], padRow, |b.slots|)
    {
      hide EndRow, ValidConfig, CommitLast, TokenKept, Reverse, Target, Commits;
      ghost var before := history[..];
      for r := 0 to |b.slots|
        invariant history.Length == padRow + 1
        invariant Committed(c, b, rows, before, history[..], padRow, r)
      {
        TargetIs(c, b, padRow, r);
        if Commits(c, b, padRow, r) {
          CommittedRowIsEndRow(c, b, rows, padRow, tokens, r);
        }
        ghost var mid := history[..];
        history[Target(b, padRow, r)] := Reverse(tokens[CommitLast(b, r)][..c.n - 1]);
        CommitStep(c, b, rows, before, mid, history[..], padRow, r);
      }
    }

    /** Anchor and accepted drafts enter each row; the rest of the block is dropped. */
    method CommitAfterVerify(drafts: seq<seq<int>>, slots: seq<nat>, counts: seq<nat>)
      requires Valid() && AcceptOk(padRow, drafts, slots, counts)
      modifies history
      ensures Valid() && AcceptedRows(c, old(history[..]), history[..], drafts, slots, counts, |slots|)
    {
      ghost var before := history[..];
      var window := seq(|slots|, r requires 0 <= r < |slots| && slots[r] < history.Length reads history =>
        history[slots[r]] + drafts[r]);
      for r := 0 to |slots|
        invariant history.Length == padRow + 1
        invariant RowsOk(c, history[..], padRow + 1)
        invariant AcceptedRows(c, before, history[..], drafts, slots, counts, r)
      {
        assert window[r] == before[slots[r]] + drafts[r];
        history[slots[r]] := window[r][counts[r]..counts[r] + c.n - 1];
      }
    }
  }

  /** Masked predecessors of a token, as kept for the commit. */
  ghost predicate TokenKept(c: Config, b: Batch, rows: seq<seq<int>>, padRow: nat, tokens: seq<seq<int>>, r: nat,
                            o: nat)
    requires ValidConfig(c) && BatchOk(c, b, padRow) && RowsOk(c, rows, |b.slots|)
    requires r < |b.slots| && o < Len(b, r) && |tokens| == |b.inputIds|
  {
    TokenPlace(c, b, padRow, r, o);
    RunFits(c, b, padRow, r);
    tokens[StartOf(b, r) + o] == LookBacks(c, rows[r] + RunOf(b, r), c.n - 1 + o)
  }

  lemma PaddingIsPadding(c: Config, b: Batch, tokens: seq<seq<int>>, ids: seq<seq<seq<int>>>)
    requires ValidConfig(c) && |ids| == |tokens| == |b.inputIds| == |b.positions|
    requires forall t :: 0 <= t < |tokens| ==> |tokens[t]| == c.n
    requires forall k :: 0 <= k < |tokens| ==>
      ids[k] == LayerIds(c, Compressed(c, tokens[k], b.positions[k], k < NumReal(b)))
    ensures PaddingServed(c, b, ids)
  {
    hide LayerIds, RepeatInterleave, Sum;
    if b.mode.Extend? {
      forall t | Sum(b.mode.lens) <= t < |ids| ensures ids[t] == LayerIds(c, seq(c.n, s => c.padId)) {
        assert Compressed(c, tokens[t], b.positions[t], false) == seq(c.n, s => c.padId);
      }
    }
  }

  lemma TableServes(c: Config, b: Batch, rows: seq<seq<int>>, padRow: nat,
                    ids: seq<seq<seq<int>>>, tokens: seq<seq<int>>, r: nat, o: nat)
    requires ValidConfig(c) && BatchOk(c, b, padRow) && RowsOk(c, rows, |b.slots|)
    requires r < |b.slots| && o < Len(b, r) && |ids| == |tokens| == |b.inputIds|
    requires forall t :: 0 <= t < |tokens| ==> |tokens[t]| == c.n
    requires forall k :: 0 <= k < |tokens| ==>
      RowKnown(c, b, padRow, rows, k) && tokens[k] == MaskAll(c, Predecessors(c, b, rows, padRow, k))
    requires forall k :: 0 <= k < |tokens| ==>
      ids[k] == LayerIds(c, Compressed(c, tokens[k], b.positions[k], k < NumReal(b)))
    ensures TokenServed(c, b, rows, padRow, ids, r, o) && TokenKept(c, b, rows, padRow, tokens, r, o)
  {
    hide Predecessors, Compressed, LookBacks, SlotWindow, LayerIds, RowOf, NumReal, Sum, RepeatInterleave;
    TokenPlace(c, b, padRow, r, o);
    var t := StartOf(b, r) + o;
    assert RowKnown(c, b, padRow, rows, t);
    PredecessorsAreLookBacks(c, b, rows, padRow, r, o);
    CompressedLookBacks(c, rows[r] + RunOf(b, r), c.n - 1 + o, b.positions[t]);
  }

  /** The token's row is one of the batch's requests. */
  ghost predicate RowKnown(c: Config, b: Batch, padRow: nat, rows: seq<seq<int>>, t: nat) {
    BatchOk(c, b, padRow) && t < |b.inputIds| && (b.mode.Verify? ==> b.mode.block > 0) &&
    (t < NumReal(b) ==> RowOf(b, t) < |b.slots|)
  }

  lemma PlaceOfToken(c: Config, b: Batch, padRow: nat, rows: seq<seq<int>>, t: nat)
    requires BatchOk(c, b, padRow) && t < |b.inputIds|
    ensures RowKnown(c, b, padRow, rows, t)
  {
    match b.mode
    case Decode =>
    case Verify(block) => BlockRow(t, block, |b.slots|);
    case Extend(_, lens, _) =>
      if t < NumReal(b) {
        RepeatInterleaveRange(lens, t);
      }
  }

  lemma NothingToServe(c: Config, b: Batch, padRow: nat)
    requires BatchOk(c, b, padRow) && |b.inputIds| == 0
    ensures forall r :: 0 <= r < |b.slots| ==> Len(b, r) == 0 && !Commits(c, b, padRow, r)
  {
    forall r | 0 <= r < |b.slots| ensures Len(b, r) == 0 {
      if Len(b, r) > 0 {
        TokenPlace(c, b, padRow, r, 0);
      }
    }
  }

  lemma LastCommitted(c: Config, b: Batch, padRow: nat, r: nat)
    requires BatchOk(c, b, padRow) && r < |b.slots| && |b.inputIds| > 0 && Commits(c, b, padRow, r)
    ensures Len(b, r) > 0 && CommitLast(b, r) == StartOf(b, r) + Len(b, r) - 1
  {
    RunFits(c, b, padRow, r);
  }

  /** The reversed predecessors of the last token are the row the run leaves. */
  lemma CommittedRowIsEndRow(c: Config, b: Batch, rows: seq<seq<int>>, padRow: nat, tokens: seq<seq<int>>, r: nat)
    requires ValidConfig(c) && BatchOk(c, b, padRow) && RowsOk(c, rows, |b.slots|) && r < |b.slots|
    requires |b.inputIds| > 0 && Commits(c, b, padRow, r)
    requires |tokens| == |b.inputIds| && forall t :: 0 <= t < |tokens| ==> |tokens[t]| == c.n
    requires forall o :: 0 <= o < Len(b, r) ==> TokenKept(c, b, rows, padRow, tokens, r, o)
    ensures Reverse(tokens[CommitLast(b, r)][..c.n - 1]) == EndRow(c, b, rows, padRow, r)
  {
    var len := Len(b, r);
    LastCommitted(c, b, padRow, r);
    assert TokenKept(c, b, rows, padRow, tokens, r, len - 1);
    RunFits(c, b, padRow, r);
    ReversedLookBacks(c, rows[r], RunOf(b, r));
  }

  lemma ReversedLookBacks(c: Config, row: seq<int>, run: seq<int>)
    requires c.n >= 1 && |row| == c.n - 1 && |run| > 0
    ensures Reverse(LookBacks(c, row + run, c.n - 1 + (|run| - 1))[..c.n - 1])
         == MaskAll(c, NextRow(c, row, run, |run|))
  {
    hide Mask;
    var h := row + run;
    var w := LookBacks(c, h, c.n - 1 + (|run| - 1));
    forall i | 0 <= i < c.n - 1
      ensures Reverse(w[..c.n - 1])[i] == MaskAll(c, NextRow(c, row, run, |run|))[i]
    {
      assert w[c.n - 2 - i] == Mask(c, h[|run| + i]);
    }
  }

  lemma CommitStep(c: Config, b: Batch, rows: seq<seq<int>>, before: seq<seq<int>>, mid: seq<seq<int>>,
                   after: seq<seq<int>>, padRow: nat, r: nat)
    requires BatchOk(c, b, padRow) && RowsOk(c, rows, |b.slots|) && DistinctTargets(c, b, padRow) && r < |b.slots|
    requires Committed(c, b, rows, before, mid, padRow, r) && |after| == |mid| == padRow + 1
    requires var target := if Commits(c, b, padRow, r) then b.slots[r] else padRow;
      target < |mid| && after == mid[target := after[target]] && |after[target]| == c.n - 1
    requires Commits(c, b, padRow, r) ==> after[b.slots[r]] == EndRow(c, b, rows, padRow, r)
    ensures Committed(c, b, rows, before, after, padRow, r + 1)
  {
    hide EndRow, Commits;
    forall slot | 0 <= slot < padRow && forall k :: 0 <= k < r + 1 && Commits(c, b, padRow, k) ==> b.slots[k] != slot
      ensures after[slot] == before[slot]
    {
      assert Commits(c, b, padRow, r) ==> b.slots[r] != slot;
    }
  }

  ghost predicate AcceptOk(padRow: nat, drafts: seq<seq<int>>, slots: seq<nat>, counts: seq<nat>) {
    |drafts| == |slots| == |counts| &&
    (forall r :: 0 <= r < |slots| ==> slots[r] < padRow && counts[r] <= |drafts[r]|) &&
    forall r, r' :: 0 <= r < r' < |slots| ==> slots[r] != slots[r']
  }

  ghost predicate AcceptedRows(c: Config, before: seq<seq<int>>, after: seq<seq<int>>, drafts: seq<seq<int>>,
                               slots: seq<nat>, counts: seq<nat>, upTo: nat)
  {
    c.n >= 1 && |after| == |before| && upTo <= |slots| == |drafts| == |counts| &&
    (forall r :: 0 <= r < upTo ==> slots[r] < |before| && |before[slots[r]]| == c.n - 1 && counts[r] <= |drafts[r]|) &&
    (forall r :: 0 <= r < upTo ==> after[slots[r]] == NextRow(c, before[slots[r]], drafts[r], counts[r])) &&
    forall s :: 0 <= s < |before| && (forall r :: 0 <= r < upTo ==> slots[r] != s) ==> after[s] == before[s]
  }
}

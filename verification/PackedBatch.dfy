/** The packed-batch form: every request scattered into its own row behind its context, all rows hashed,
    and each flat token's column picked out again. */
module PackedBatch {
  import opened HashArithmetic
  import opened NgramWindow
  import opened Ragged

  function RequestIndex(queryStartLoc: seq<int>, pos: nat): (r: int)
    requires |queryStartLoc| >= 2
  {
    var found := SearchSortedRight(queryStartLoc, pos) as int - 1;
    if found > |queryStartLoc| - 2 then |queryStartLoc| - 2 else found
  }

  function Column(queryStartLoc: seq<int>, pos: nat, width: nat): (col: nat)
    requires |queryStartLoc| >= 2 && 0 <= RequestIndex(queryStartLoc, pos) && width >= 1
    ensures col < width
  {
    var col := pos - queryStartLoc[RequestIndex(queryStartLoc, pos)];
    if col < 0 then 0 else if col > width - 1 then width - 1 else col
  }

  /** A position is its request's start plus its column, so no two positions share a cell. */
  lemma PlaceOf(lens: seq<nat>, pos: nat, width: nat)
    requires |lens| >= 1 && pos < width
    ensures var s := Starts(lens);
      0 <= RequestIndex(s, pos) < |lens| && pos == s[RequestIndex(s, pos)] + Column(s, pos, width)
  {
    var s := Starts(lens);
    SearchSortedBounds(s, pos);
    assert lens[..0] == [] && s[0] == 0;
    var i := SearchSortedRight(s, pos);
    assert i >= 1;
    StartsMonotone(lens, RequestIndex(s, pos), i - 1);
    StartsMonotone(lens, 0, RequestIndex(s, pos));
  }

  /** A token of a run lands in its request's row, at its offset. */
  lemma PlaceInRun(lens: seq<nat>, r: nat, o: nat, width: nat)
    requires r < |lens| && o < lens[r] && Sum(lens) <= width
    ensures 0 <= Starts(lens)[r] + o < width
    ensures Starts(lens)[r] == Sum(lens[..r])
    ensures RequestIndex(Starts(lens), Starts(lens)[r] + o) == r
    ensures width >= 1 && Column(Starts(lens), Starts(lens)[r] + o, width) == o
  {
    SearchFindsOwner(lens, r, o);
    SumPrefix(lens, r);
    StartsMonotone(lens, 0, r);
    assert lens[..0] == [];
  }

  function RunAt(inputIds: seq<int>, lens: seq<nat>, r: nat): (run: seq<int>)
    requires r < |lens| && Sum(lens) <= |inputIds|
    ensures |run| == lens[r]
  {
    SumPrefix(lens, r);
    inputIds[Sum(lens[..r])..Sum(lens[..r]) + lens[r]]
  }

  /** The id of token o of request r is what its own context and run give alone. */
  ghost predicate AloneAt(t: Table, inputIds: seq<int>, lens: seq<nat>, contexts: seq<seq<int>>,
                          ids: seq<seq<int>>, r: nat, o: nat)
    requires ValidTable(t) && r < |lens| == |contexts| && o < lens[r] && Sum(lens) <= |inputIds| == |ids|
    requires |contexts[r]| == t.n - 1
  {
    PlaceInRun(lens, r, o, |inputIds|);
    ids[Starts(lens)[r] + o] == IdsAt(t, contexts[r] + RunAt(inputIds, lens, r), t.n - 1 + o)
  }

  ghost predicate ContextsOk(t: Table, contexts: seq<seq<int>>) {
    t.n >= 2 && forall r :: 0 <= r < |contexts| ==> |contexts[r]| == t.n - 1
  }

  function PackedRow(packed: array2<int>, r: nat): (row: seq<int>)
    requires r < packed.Length0
    reads packed
    ensures |row| == packed.Length1
  {
    seq(packed.Length1, k requires 0 <= k < packed.Length1 reads packed => packed[r, k])
  }

  /** The cell of a position holds the given token. */
  ghost predicate CellHolds(packed: array2<int>, queryStartLoc: seq<int>, pos: nat, token: int)
    requires |queryStartLoc| - 1 == packed.Length0 >= 1 && packed.Length1 >= 1
    reads packed
  {
    0 <= RequestIndex(queryStartLoc, pos) < packed.Length0 &&
    packed[RequestIndex(queryStartLoc, pos), Column(queryStartLoc, pos, packed.Length1)] == token
  }

  /** A position's cell. */
  ghost predicate PutAt(queryStartLoc: seq<int>, width: nat, pos: nat, r: nat, c: nat)
    requires |queryStartLoc| >= 2 && width >= 1
  {
    RequestIndex(queryStartLoc, pos) == r && Column(queryStartLoc, pos, width) == c
  }

  /** Cells that no position below upTo is put in hold eos. */
  ghost predicate EosElsewhere(packed: array2<int>, queryStartLoc: seq<int>, eos: int, upTo: nat)
    requires |queryStartLoc| - 1 == packed.Length0 >= 1 && packed.Length1 >= 1
    reads packed
  {
    forall r, c :: 0 <= r < packed.Length0 && 0 <= c < packed.Length1 ==>
      packed[r, c] == eos || exists pos: nat :: pos < upTo && PutAt(queryStartLoc, packed.Length1, pos, r, c)
  }

  /** Scatter the flat tokens into their rows; cells no token reaches hold eos. */
  method Pack(inputIds: seq<int>, queryStartLoc: seq<int>, eos: int, ghost lens: seq<nat>) returns (packed: array2<int>)
    requires |lens| >= 1 && queryStartLoc == Starts(lens) && |inputIds| >= 1
    ensures packed.Length0 == |lens| && packed.Length1 == |inputIds| && fresh(packed)
    ensures forall pos :: 0 <= pos < |inputIds| ==> CellHolds(packed, queryStartLoc, pos, inputIds[pos])
    ensures EosElsewhere(packed, queryStartLoc, eos, |inputIds|)
  {
    hide RequestIndex, Column, Starts;
    var width := |inputIds|;
    packed := new int[|queryStartLoc| - 1, width]((r, k) => eos);
    forall pos | 0 <= pos < width
      ensures 0 <= RequestIndex(queryStartLoc, pos) < |lens|
      ensures pos == queryStartLoc[RequestIndex(queryStartLoc, pos)] + Column(queryStartLoc, pos, width)
    {
      PlaceOf(lens, pos, width);
    }
    for pos := 0 to width
      invariant forall k :: 0 <= k < pos ==> CellHolds(packed, queryStartLoc, k, inputIds[k])
      invariant EosElsewhere(packed, queryStartLoc, eos, pos)
    {
      label Before:
      var req, col := RequestIndex(queryStartLoc, pos), Column(queryStartLoc, pos, width);
      packed[req, col] := inputIds[pos];
      assert PutAt(queryStartLoc, width, pos, req, col);
      forall r, c | 0 <= r < packed.Length0 && 0 <= c < width && (r != req || c != col)
        ensures packed[r, c] == eos || exists p: nat :: p < pos + 1 && PutAt(queryStartLoc, width, p, r, c)
      {
        assert packed[r, c] == old@Before(packed[r, c]);
      }
    }
  }

  /** The packed computation, for any mix of request lengths, empty ones and trailing padding included. */
  method ComputeNgramIds(t: Table, inputIds: seq<int>, queryStartLoc: seq<int>, contexts: seq<seq<int>>,
                         ghost lens: seq<nat>)
      returns (ids: seq<seq<int>>)
    requires ValidTable(t) && |lens| >= 1 && queryStartLoc == Starts(lens) && Sum(lens) <= |inputIds|
    requires |contexts| == |lens| && ContextsOk(t, contexts)
    ensures |ids| == |inputIds|
    ensures forall r, o :: 0 <= r < |lens| && 0 <= o < lens[r] ==> AloneAt(t, inputIds, lens, contexts, ids, r, o)
  {
    hide IdsAt, RequestIndex, Column, Starts;
    ids := [];
    if |inputIds| > 0 {
      var packed := Pack(inputIds, queryStartLoc, t.eos, lens);
      for pos := 0 to |inputIds|
        invariant |ids| == pos
        invariant forall k :: 0 <= k < |inputIds| ==> CellHolds(packed, queryStartLoc, k, inputIds[k])
        invariant forall k :: 0 <= k < pos ==>
          0 <= RequestIndex(queryStartLoc, k) < |lens| && ids[k] == PickedIds(t, packed, queryStartLoc, contexts, k)
      {
        assert CellHolds(packed, queryStartLoc, pos, inputIds[pos]);
        ids := ids + [PickedIds(t, packed, queryStartLoc, contexts, pos)];
      }
      forall r, o | 0 <= r < |lens| && 0 <= o < lens[r] ensures AloneAt(t, inputIds, lens, contexts, ids, r, o) {
        PlaceInRun(lens, r, o, |inputIds|);
        RowPrefix(inputIds, lens, packed, r, o);
        PickedAlone(t, inputIds, lens, contexts, packed, r, o);
      }
    } else {
      forall r | 0 <= r < |lens| ensures lens[r] == 0 {
        SumPrefix(lens, r);
      }
    }
  }

  /** Ids of the row and column of one position. */
  function PickedIds(t: Table, packed: array2<int>, queryStartLoc: seq<int>, contexts: seq<seq<int>>,
                     pos: nat): seq<int>
    requires ValidTable(t) && ContextsOk(t, contexts) && |contexts| == packed.Length0 == |queryStartLoc| - 1 >= 1
    requires packed.Length1 >= 1 && 0 <= RequestIndex(queryStartLoc, pos) < |contexts|
    reads packed
  {
    var r := RequestIndex(queryStartLoc, pos);
    IdsAt(t, contexts[r] + PackedRow(packed, r), t.n - 1 + Column(queryStartLoc, pos, packed.Length1))
  }

  lemma RowPrefix(inputIds: seq<int>, lens: seq<nat>, packed: array2<int>, r: nat, o: nat)
    requires r < |lens| && o < lens[r] && Sum(lens) <= |inputIds|
    requires packed.Length0 == |lens| && packed.Length1 == |inputIds| >= 1
    requires forall pos :: 0 <= pos < |inputIds| ==> CellHolds(packed, Starts(lens), pos, inputIds[pos])
    ensures o < packed.Length1 && PackedRow(packed, r)[..o + 1] == RunAt(inputIds, lens, r)[..o + 1]
  {
    hide RequestIndex, Column, Starts, Sum;
    PlaceInRun(lens, r, o, |inputIds|);
    SumPrefix(lens, r);
    forall k | 0 <= k < o + 1 ensures PackedRow(packed, r)[k] == RunAt(inputIds, lens, r)[k] {
      PlaceInRun(lens, r, k, |inputIds|);
      assert RunAt(inputIds, lens, r)[k] == inputIds[Sum(lens[..r]) + k];
      assert CellHolds(packed, Starts(lens), Starts(lens)[r] + k, inputIds[Starts(lens)[r] + k]);
    }
  }

  lemma PickedAlone(t: Table, inputIds: seq<int>, lens: seq<nat>, contexts: seq<seq<int>>, packed: array2<int>,
                    r: nat, o: nat)
    requires ValidTable(t) && r < |lens| == |contexts| && o < lens[r] && Sum(lens) <= |inputIds|
    requires ContextsOk(t, contexts) && packed.Length0 == |lens| && packed.Length1 == |inputIds|
    requires o < packed.Length1 && PackedRow(packed, r)[..o + 1] == RunAt(inputIds, lens, r)[..o + 1]
    requires RequestIndex(Starts(lens), Starts(lens)[r] + o) == r && Starts(lens)[r] + o >= 0
    requires Column(Starts(lens), Starts(lens)[r] + o, |inputIds|) == o
    ensures PickedIds(t, packed, Starts(lens), contexts, Starts(lens)[r] + o)
         == IdsAt(t, contexts[r] + RunAt(inputIds, lens, r), t.n - 1 + o)
  {
    hide Window, RowIds, RequestIndex, Column, Starts, RunAt, PackedRow;
    var a, b, i := contexts[r] + PackedRow(packed, r), contexts[r] + RunAt(inputIds, lens, r), t.n - 1 + o;
    assert a[..i + 1] == contexts[r] + PackedRow(packed, r)[..o + 1];
    assert b[..i + 1] == contexts[r] + RunAt(inputIds, lens, r)[..o + 1];
    forall k | 0 <= k < t.n ensures SameBack(a, i, b, i, k) {
      assert a[..i + 1][i - k] == a[i - k] && b[..i + 1][i - k] == b[i - k];
    }
    WindowLocal(a, i, b, i, t.eos, t.n);
  }

  /** With each request's true context, every flat token gets the id it has in its own sequence. */
  lemma PackedIsPerRequest(t: Table, inputIds: seq<int>, lens: seq<nat>, contexts: seq<seq<int>>,
                           befores: seq<seq<int>>, ids: seq<seq<int>>, r: nat, o: nat)
    requires ValidTable(t) && r < |lens| == |contexts| == |befores| && o < lens[r] && Sum(lens) <= |inputIds| == |ids|
    requires contexts[r] == Context(t, befores[r]) && AloneAt(t, inputIds, lens, contexts, ids, r, o)
    ensures 0 <= Starts(lens)[r] + o < |ids|
    ensures ids[Starts(lens)[r] + o]
         == SequenceIds(t, befores[r] + RunAt(inputIds, lens, r), |befores[r]| + o)
  {
    hide IdsAt, SequenceIds, Context, Starts, Sum, RunAt, RequestIndex, Column;
    PlaceInRun(lens, r, o, |inputIds|);
    PieceIds(t, befores[r], RunAt(inputIds, lens, r), o);
  }
}

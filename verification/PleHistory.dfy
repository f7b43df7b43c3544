/** The shared n-gram context of the per-layer embeddings: rows prepared from a pool of contexts, hashed
    window by window, and committed back, with reserved slot 0 taking everything that must not land. */
module PleHistory {
  import opened Wrappers
  import opened HashArithmetic
  import opened Ragged
  import opened NgramWindow
  import opened SlotWrites

  datatype Mode = Decode(fast: bool) | Verify(rowWidth: int) | Extend(lensOnHost: bool)

  /** Snapshot bookkeeping of a batch: destination slots, which rows take part, aligned lengths. */
  datatype Track = Track(indices: seq<nat>, mask: seq<bool>, aligned: Option<seq<int>>)

  /** lengths: run lengths (extend), or true row lengths within the fixed stride (verify). */
  datatype Forward = Forward(mode: Mode, inputIds: seq<int>, processed: nat, lengths: seq<nat>, slots: seq<nat>,
                             outCacheLoc: Option<seq<int>>, track: Option<Track>)

  function MaxLen(lens: seq<nat>): nat {
    if lens == [] then 0
    else var m := MaxLen(lens[..|lens| - 1]); if m < lens[|lens| - 1] then lens[|lens| - 1] else m
  }

  lemma {:induction false} MaxLenBounds(lens: seq<nat>, r: nat)
    requires r < |lens|
    ensures lens[r] <= MaxLen(lens)
  {
    if r < |lens| - 1 {
      MaxLenBounds(lens[..|lens| - 1], r);
    }
  }

  /** What callers owe: one slot per sequence, and lengths that describe the processed tokens. */
  ghost predicate ForwardOk(f: Forward, slotCount: nat) {
    f.processed <= |f.inputIds| && slotCount >= 1 &&
    (forall r :: 0 <= r < |f.slots| ==> f.slots[r] < slotCount) &&
    (f.outCacheLoc.Some? ==> f.processed <= |f.outCacheLoc.value|) &&
    |f.lengths| == |f.slots| &&
    (f.mode.Decode? ==> |f.slots| == f.processed && forall r :: 0 <= r < |f.lengths| ==> f.lengths[r] == 1) &&
    (f.mode.Extend? ==> Sum(f.lengths) == f.processed) &&
    (f.mode.Verify? ==> forall r :: 0 <= r < |f.lengths| ==> f.lengths[r] <= f.mode.rowWidth) &&
    (f.track.Some? ==> TrackOk(f.track.value, |f.slots|, slotCount))
  }

  ghost predicate TrackOk(k: Track, count: nat, slotCount: nat) {
    |k.indices| == |k.mask| == count && (forall r :: 0 <= r < count ==> k.indices[r] < slotCount) &&
    (k.aligned.Some? ==> |k.aligned.value| == count)
  }

  function Count(f: Forward): nat { |f.slots| }

  /** Verify batches must be whole rows, one per slot. */
  predicate WholeRows(f: Forward) {
    f.mode.Verify? ==>
      f.mode.rowWidth > 0 && f.processed % f.mode.rowWidth == 0 && f.processed / f.mode.rowWidth == |f.lengths|
  }

  function Width(f: Forward): nat
    requires WholeRows(f)
  {
    match f.mode
    case Decode(_) => 1
    case Verify(w) => w
    case Extend(onHost) => if onHost then MaxLen(f.lengths) else f.processed
  }

  /** The row width: 1 in decode, the draft stride in verify, else the longest run where lengths are known on the
      host, and all processed tokens where they are not. */
  ghost predicate WidthIs(f: Forward, width: nat) {
    match f.mode
    case Decode(_) => width == 1
    case Verify(w) => width == w
    case Extend(onHost) =>
      if onHost then (forall r :: 0 <= r < |f.lengths| ==> f.lengths[r] <= width) && (width == 0 || width in f.lengths)
      else width == f.processed
  }

  lemma {:induction false} MaxLenAttained(lens: seq<nat>)
    ensures MaxLen(lens) == 0 || MaxLen(lens) in lens
  {
    if lens != [] {
      MaxLenAttained(lens[..|lens| - 1]);
    }
  }

  lemma WidthIsWidth(f: Forward)
    requires WholeRows(f)
    ensures WidthIs(f, Width(f))
  {
    MaxLenAttained(f.lengths);
    forall r | 0 <= r < |f.lengths| ensures f.lengths[r] <= MaxLen(f.lengths) {
      MaxLenBounds(f.lengths, r);
    }
  }

  /** First flat position of row r, and how many flat positions it spans. */
  function Base(f: Forward, r: nat): int
    requires r < Count(f) == |f.lengths| && WholeRows(f)
  {
    match f.mode
    case Decode(_) => r
    case Verify(w) => r * w
    case Extend(_) => Starts(f.lengths)[r]
  }

  function Span(f: Forward, r: nat): nat
    requires r < Count(f) == |f.lengths| && WholeRows(f)
  {
    match f.mode
    case Decode(_) => 1
    case Verify(w) => w
    case Extend(_) => f.lengths[r]
  }

  /** Row of a flat position, as each mode finds it. */
  function ReqOf(f: Forward, pos: nat): int
    requires WholeRows(f) && Count(f) == |f.lengths|
  {
    match f.mode
    case Decode(_) => pos
    case Verify(w) => pos / w
    case Extend(_) =>
      var found: int := SearchSortedRight(Starts(f.lengths), pos);
      if found - 1 < 0 then 0 else if found - 1 > Count(f) - 1 then Count(f) - 1 else found - 1
  }

  lemma PlaceIn(f: Forward, slotCount: nat, r: nat, o: nat)
    requires ForwardOk(f, slotCount) && WholeRows(f) && r < Count(f) && o < Span(f, r)
    ensures 0 <= Base(f, r) + o < f.processed && ReqOf(f, Base(f, r) + o) == r
    ensures f.lengths[r] <= Width(f) && Span(f, r) <= Width(f)
  {
    match f.mode
    case Decode(_) =>
    case Verify(w) =>
      VerifyRows(f, w);
      BlockIndex(r, w, o, |f.lengths|);
    case Extend(_) =>
      SearchFindsOwner(f.lengths, r, o);
      SumPrefix(f.lengths, r);
      MaxLenBounds(f.lengths, r);
      hide Sum, Starts, SearchSortedRight, MaxLen;
  }

  lemma VerifyRows(f: Forward, w: int)
    requires WholeRows(f) && f.mode == Verify(w)
    ensures f.processed == |f.lengths| * w
  {
    assert f.processed == w * (f.processed / w);
  }

  lemma RowOffset(pos: nat, w: nat)
    requires w > 0
    ensures 0 <= pos - (pos / w) * w < w
  {
    assert pos == w * (pos / w) + pos % w;
  }

  lemma VerifyLayout(f: Forward, r: nat, pos: nat)
    requires f.mode.Verify? && WholeRows(f) && r < Count(f) == |f.lengths|
    ensures ReqOf(f, pos) == pos / f.mode.rowWidth && Base(f, r) == r * f.mode.rowWidth
    ensures Span(f, r) == Width(f) == f.mode.rowWidth
  {
  }

  lemma PlaceVerify(f: Forward, pos: nat)
    requires f.mode.Verify? && WholeRows(f) && Count(f) == |f.lengths| && pos < f.processed
    ensures 0 <= ReqOf(f, pos) < Count(f) && 0 <= pos - Base(f, ReqOf(f, pos)) < Span(f, ReqOf(f, pos)) <= Width(f)
  {
    hide ReqOf, Base, Span, Width;
    var w := f.mode.rowWidth;
    VerifyRows(f, w);
    BlockRow(pos, w, |f.lengths|);
    RowOffset(pos, w);
    VerifyLayout(f, pos / w, pos);
  }

  lemma PlaceExtend(f: Forward, slotCount: nat, pos: nat)
    requires ForwardOk(f, slotCount) && f.mode.Extend? && pos < f.processed
    ensures 0 <= ReqOf(f, pos) < Count(f) && 0 <= pos - Base(f, ReqOf(f, pos)) < Span(f, ReqOf(f, pos)) <= Width(f)
  {
    hide Sum, Starts, SearchSortedRight, MaxLen, ReqOf, Width;
    var r, o := OwnerOf(f.lengths, pos);
    assert Base(f, r) + o == pos && o < Span(f, r);
    PlaceIn(f, slotCount, r, o);
  }

  lemma Place(f: Forward, slotCount: nat, pos: nat)
    requires ForwardOk(f, slotCount) && WholeRows(f) && pos < f.processed
    ensures 0 <= ReqOf(f, pos) < Count(f) && 0 <= pos - Base(f, ReqOf(f, pos)) < Span(f, ReqOf(f, pos)) <= Width(f)
  {
    match f.mode
    case Decode(_) =>
    case Verify(_) =>
      hide *;
      PlaceVerify(f, pos);
    case Extend(_) =>
      hide *;
      PlaceExtend(f, slotCount, pos);
  }

  /** Lengths fit the width even for rows with no tokens. */
  lemma LengthFits(f: Forward, slotCount: nat, r: nat)
    requires ForwardOk(f, slotCount) && WholeRows(f) && r < Count(f)
    ensures f.lengths[r] <= Width(f) && f.lengths[r] <= Span(f, r)
    ensures f.lengths[r] > 0 ==> 0 <= Base(f, r) && Base(f, r) + f.lengths[r] <= f.processed
  {
    if f.lengths[r] > 0 {
      PlaceIn(f, slotCount, r, f.lengths[r] - 1);
      PlaceIn(f, slotCount, r, 0);
    }
  }

  /** The tokens of row r. */
  function Run(f: Forward, r: nat): (run: seq<int>)
    requires r < Count(f) == |f.lengths| && WholeRows(f)
    requires f.lengths[r] > 0 ==> 0 <= Base(f, r) && Base(f, r) + f.lengths[r] <= |f.inputIds|
    ensures |run| == f.lengths[r]
  {
    if f.lengths[r] == 0 then [] else f.inputIds[Base(f, r)..Base(f, r) + f.lengths[r]]
  }

  /** Slot a row reads and writes: slot 0 for padding. */
  function StateIndex(f: Forward, r: nat): (slot: nat)
    requires r < Count(f) == |f.lengths| && WholeRows(f)
    requires f.outCacheLoc.Some? && f.mode.Decode? ==> r < |f.outCacheLoc.value|
    requires f.outCacheLoc.Some? && f.mode.Verify? ==>
      0 <= Base(f, r) && Base(f, r) + Span(f, r) <= |f.outCacheLoc.value|
  {
    var written := f.outCacheLoc.None? ||
      (f.mode.Decode? && f.outCacheLoc.value[r] != 0) ||
      (f.mode.Verify? && exists k :: Base(f, r) <= k < Base(f, r) + Span(f, r) && f.outCacheLoc.value[k] != 0) ||
      f.mode.Extend?;
    var nonEmpty := (f.mode.Decode? && f.mode.fast) || f.lengths[r] != 0;
    if nonEmpty && written then f.slots[r] else 0
  }

  lemma StateIndexOk(f: Forward, slotCount: nat, r: nat)
    requires ForwardOk(f, slotCount) && WholeRows(f) && r < Count(f)
    ensures f.outCacheLoc.Some? && f.mode.Decode? ==> r < |f.outCacheLoc.value|
    ensures f.mode.Verify? ==> 0 <= Base(f, r) && Base(f, r) + Span(f, r) <= f.processed
    ensures f.outCacheLoc.Some? && f.mode.Verify? ==> Base(f, r) + Span(f, r) <= |f.outCacheLoc.value|
    ensures StateIndex(f, r) < slotCount
  {
    if f.mode.Verify? {
      PlaceIn(f, slotCount, r, 0);
      PlaceIn(f, slotCount, r, f.mode.rowWidth - 1);
    }
  }

  /** Whether row r belongs to a request: it has tokens, and in decode and verify the cache entry of one of its flat
      positions is a real one. */
  ghost predicate TakesPart(f: Forward, slotCount: nat, r: nat)
    requires ForwardOk(f, slotCount) && WholeRows(f) && r < Count(f)
  {
    VerifyEntries(f, r);
    match f.mode
    case Decode(_) => f.outCacheLoc.Some? ==> f.outCacheLoc.value[r] != 0
    case Verify(w) =>
      f.lengths[r] > 0 &&
      (f.outCacheLoc.Some? ==> exists k :: r * w <= k < r * w + w && f.outCacheLoc.value[k] != 0)
    case Extend(_) => f.lengths[r] > 0
  }

  lemma VerifyEntries(f: Forward, r: nat)
    requires WholeRows(f) && r < Count(f) == |f.lengths|
    ensures f.mode.Verify? ==> 0 <= r * f.mode.rowWidth && r * f.mode.rowWidth + f.mode.rowWidth <= f.processed
  {
    if f.mode.Verify? {
      var w := f.mode.rowWidth;
      VerifyRows(f, w);
      MonotoneProduct(r + 1, |f.lengths|, w, w);
      assert (r + 1) * w == r * w + w;
    }
  }

  /** The slot of a row that takes part is its request's; every other row uses the reserved slot. */
  ghost function SlotOf(f: Forward, slotCount: nat, r: nat): nat
    requires ForwardOk(f, slotCount) && WholeRows(f) && r < Count(f)
  {
    if TakesPart(f, slotCount, r) then f.slots[r] else 0
  }

  lemma StateIndexIs(f: Forward, slotCount: nat, r: nat)
    requires ForwardOk(f, slotCount) && WholeRows(f) && r < Count(f)
    ensures f.outCacheLoc.Some? && f.mode.Decode? ==> r < |f.outCacheLoc.value|
    ensures f.outCacheLoc.Some? && f.mode.Verify? ==>
      0 <= Base(f, r) && Base(f, r) + Span(f, r) <= |f.outCacheLoc.value|
    ensures StateIndex(f, r) == SlotOf(f, slotCount, r) < slotCount
  {
    StateIndexOk(f, slotCount, r);
    VerifyEntries(f, r);
  }

  datatype PleBatch = PleBatch(lengths: seq<nat>, rowWidth: nat, reqIndices: seq<nat>, offsets: seq<nat>,
                               stateIndices: seq<nat>, context: seq<seq<int>>)

  /** Row r padded with eos to the common width. */
  function PaddedRow(f: Forward, eos: int, r: nat): (row: seq<int>)
    requires r < Count(f) == |f.lengths| && WholeRows(f) && f.lengths[r] <= Width(f)
    requires f.lengths[r] > 0 ==> 0 <= Base(f, r) && Base(f, r) + f.lengths[r] <= |f.inputIds|
    ensures |row| == Width(f)
  {
    Run(f, r) + Eos(eos, Width(f) - f.lengths[r])
  }

  ghost predicate Prepared(t: Table, f: Forward, rows: seq<seq<int>>, b: PleBatch)
    requires t.n >= 1 && ForwardOk(f, |rows|)
  {
    WholeRows(f) && b.lengths == f.lengths && b.rowWidth == Width(f) &&
    |b.reqIndices| == |b.offsets| == f.processed && |b.stateIndices| == |b.context| == Count(f) &&
    (forall pos :: 0 <= pos < f.processed ==> FoundAt(f, b.reqIndices[pos], b.offsets[pos], pos)) &&
    forall r :: 0 <= r < Count(f) ==> RowPrepared(t, f, rows, b, r)
  }

  /** Row and column of a flat position. */
  ghost predicate FoundAt(f: Forward, req: nat, offset: nat, pos: nat)
    requires WholeRows(f) && Count(f) == |f.lengths|
  {
    req == ReqOf(f, pos) && req < Count(f) && offset == pos - Base(f, req) && offset < Width(f)
  }

  ghost predicate RowPrepared(t: Table, f: Forward, rows: seq<seq<int>>, b: PleBatch, r: nat)
    requires ForwardOk(f, |rows|) && WholeRows(f) && r < Count(f) == |b.stateIndices| == |b.context|
  {
    LengthFits(f, |rows|, r);
    StateIndexIs(f, |rows|, r);
    b.stateIndices[r] == SlotOf(f, |rows|, r) && b.context[r] == rows[b.stateIndices[r]] + PaddedRow(f, t.eos, r)
  }

  // ---- Commit targets ----------------------------------------------------------------------

  /** Snapshot slot and offset of row r; None when tracking is off or lacks its metadata. */
  function TrackTarget(f: Forward, r: nat): (k: Option<(nat, nat)>)
    requires r < Count(f) == |f.lengths|
    requires f.track.Some? ==> r < |f.track.value.indices| && r < |f.track.value.mask|
    requires f.track.Some? && f.track.value.aligned.Some? ==> r < |f.track.value.aligned.value|
    ensures k.Some? ==> k.value.1 <= f.lengths[r]
  {
    if f.track.None? then None
    else
      var dst := if f.track.value.mask[r] then f.track.value.indices[r] else 0;
      if f.mode.Decode? then Some((dst, f.lengths[r]))
      else if f.track.value.aligned.None? then None
      else
        var aligned := f.track.value.aligned.value[r];
        Some((dst, if aligned < 0 then 0 else if aligned < f.lengths[r] then aligned else f.lengths[r]))
  }

  /** Whether row r is snapshotted: it is marked, and outside decode the aligned lengths are known. */
  ghost predicate IsTracked(f: Forward, r: nat)
    requires f.track.Some? ==> r < |f.track.value.mask|
  {
    f.track.Some? && f.track.value.mask[r] && (f.mode.Decode? || f.track.value.aligned.Some?)
  }

  /** The snapshot's slot, 0 for none. */
  ghost function KeptSlot(f: Forward, r: nat): nat
    requires f.track.Some? ==> r < |f.track.value.indices| && r < |f.track.value.mask|
  {
    if IsTracked(f, r) then f.track.value.indices[r] else 0
  }

  /** How many tokens of the run a snapshot has seen: all in decode, else the aligned length, from 0 to the run's. */
  ghost function KeptLength(f: Forward, r: nat): (k: nat)
    requires r < |f.lengths|
    requires f.track.Some? && f.track.value.aligned.Some? ==> r < |f.track.value.aligned.value|
    ensures k <= f.lengths[r]
  {
    if f.mode.Decode? || f.track.None? || f.track.value.aligned.None? then f.lengths[r]
    else
      var aligned := f.track.value.aligned.value[r];
      if aligned <= 0 then 0 else if f.lengths[r] <= aligned then f.lengths[r] else aligned
  }

  lemma TargetIsKept(f: Forward, r: nat)
    requires r < Count(f) == |f.lengths|
    requires f.track.Some? ==> r < |f.track.value.indices| && r < |f.track.value.mask|
    requires f.track.Some? && f.track.value.aligned.Some? ==> r < |f.track.value.aligned.value|
    ensures TrackTarget(f, r).Some? ==> TrackTarget(f, r).value == (KeptSlot(f, r), KeptLength(f, r))
    ensures TrackTarget(f, r).Some? <==> f.track.Some? && (f.mode.Decode? || f.track.value.aligned.Some?)
    ensures SnapshotSlot(f, r) == KeptSlot(f, r)
  {
  }

  /** n - 1 columns of a context from an offset: the history after that many of its tokens. */
  function ContextColumns(t: Table, row: seq<int>, offset: nat): (k: seq<int>)
    requires t.n >= 1 && offset + t.n - 1 <= |row|
    ensures |k| == t.n - 1
  {
    row[offset..offset + t.n - 1]
  }

  ghost predicate RowsOk(t: Table, rows: seq<seq<int>>) {
    t.n >= 1 && |rows| >= 1 && forall k :: 0 <= k < |rows| ==> |rows[k]| == t.n - 1
  }

  /** after is before with values written at indices; slot 0 may end as anything. */
  ghost predicate Written(t: Table, before: seq<seq<int>>, after: seq<seq<int>>, indices: seq<nat>,
                          values: seq<seq<int>>, upTo: nat)
  {
    RowsOk(t, before) && RowsOk(t, after) && Landed(before, after, indices, values, upTo)
  }

  // ---- The pool ----------------------------------------------------------------------------

  class ContextPool {
    const t: Table
    const rows: array<seq<int>>
    var intermediate: seq<seq<seq<int>>>

    ghost predicate Valid()
      reads rows
    {
      ValidTable(t) && RowsOk(t, rows[..])
    }

    constructor (t: Table, slots: nat)
      requires ValidTable(t) && slots >= 1
      ensures Valid() && this.t == t && rows.Length == slots && fresh(rows)
      ensures forall k :: 0 <= k < slots ==> rows[k] == Eos(t.eos, t.n - 1)
    {
      this.t := t;
      rows := new seq<int>[slots](k => Eos(t.eos, t.n - 1));
      intermediate := [];
    }

    method SetContexts(indices: seq<nat>, values: seq<seq<int>>)
      requires Valid() && |indices| == |values| && DistinctNonzero(indices)
      requires forall r :: 0 <= r < |indices| ==> indices[r] < rows.Length && |values[r]| == t.n - 1
      modifies rows
      ensures Valid() && Written(t, old(rows[..]), rows[..], indices, values, |indices|)
    {
      Scatter(rows, indices, values);
    }

    /** Token layout and padded contexts of one batch; malformed verify batches are refused. */
    method Prepare(f: Forward) returns (result: Result<PleBatch>)
      requires Valid() && ForwardOk(f, rows.Length)
      ensures result.Ok? <==> WholeRows(f)
      ensures result.Ok? ==> Prepared(t, f, rows[..], result.value) && WidthIs(f, result.value.rowWidth)
    {
      if f.mode.Verify? &&
         (f.mode.rowWidth <= 0 || f.processed % f.mode.rowWidth != 0 || f.processed / f.mode.rowWidth != |f.lengths|) {
        return Err;
      }
      WidthIsWidth(f);
      hide ReqOf, Base, Span, Width, StateIndex, SlotOf, WidthIs, PaddedRow, Run, Sum, TrackOk;
      var reqIndices: seq<nat>, offsets: seq<nat> := [], [];
      for pos := 0 to f.processed
        invariant |reqIndices| == |offsets| == pos
        invariant forall k :: 0 <= k < pos ==> FoundAt(f, reqIndices[k], offsets[k], k)
      {
        Place(f, rows.Length, pos);
        reqIndices := reqIndices + [ReqOf(f, pos)];
        offsets := offsets + [pos - Base(f, ReqOf(f, pos))];
      }
      var b := Assemble(f, reqIndices, offsets);
      result := Ok(b);
    }

    /** Slots and padded contexts of every row, beside the layout of the tokens. */
    method Assemble(f: Forward, reqIndices: seq<nat>, offsets: seq<nat>) returns (b: PleBatch)
      requires Valid() && ForwardOk(f, rows.Length) && WholeRows(f) && |reqIndices| == |offsets| == f.processed
      requires forall k :: 0 <= k < f.processed ==> FoundAt(f, reqIndices[k], offsets[k], k)
      ensures Prepared(t, f, rows[..], b) && b.rowWidth == Width(f)
    {
      hide ReqOf, Base, Span, Width, StateIndex, SlotOf, PaddedRow, Run, Sum, TrackOk, FoundAt;
      var padded := ScatterRows(f, reqIndices, offsets);
      forall r | 0 <= r < Count(f)
        ensures f.outCacheLoc.Some? && f.mode.Decode? ==> r < |f.outCacheLoc.value|
        ensures f.outCacheLoc.Some? && f.mode.Verify? ==>
          0 <= Base(f, r) && Base(f, r) + Span(f, r) <= |f.outCacheLoc.value|
        ensures StateIndex(f, r) < rows.Length
      {
        StateIndexOk(f, rows.Length, r);
      }
      var stateIndices := seq(Count(f), r requires 0 <= r < Count(f)
          && (f.outCacheLoc.Some? && f.mode.Decode? ==> r < |f.outCacheLoc.value|)
          && (f.outCacheLoc.Some? && f.mode.Verify? ==>
                0 <= Base(f, r) && Base(f, r) + Span(f, r) <= |f.outCacheLoc.value|)
        => StateIndex(f, r));
      var context := seq(Count(f), r requires 0 <= r < Count(f) && stateIndices[r] < rows.Length reads rows =>
        rows[stateIndices[r]] + padded[r]);
      b := PleBatch(f.lengths, Width(f), reqIndices, offsets, stateIndices, context);
      forall r | 0 <= r < Count(f) ensures RowPrepared(t, f, rows[..], b, r) {
        LengthFits(f, rows.Length, r);
        StateIndexIs(f, rows.Length, r);
        assert RowPadded(f, t.eos, rows.Length, padded, r);
      }
    }

    /** padded[req, offset] = token where the offset is within the row's length, eos elsewhere. */
    method ScatterRows(f: Forward, reqIndices: seq<nat>, offsets: seq<nat>) returns (padded: seq<seq<int>>)
      requires ForwardOk(f, rows.Length) && WholeRows(f) && |reqIndices| == |offsets| == f.processed
      requires forall k :: 0 <= k < f.processed ==> FoundAt(f, reqIndices[k], offsets[k], k)
      ensures |padded| == Count(f)
      ensures forall r :: 0 <= r < Count(f) ==> RowPadded(f, t.eos, rows.Length, padded, r)
    {
      hide ReqOf, Base, Span, Width, Sum;
      var cells := new int[Count(f), Width(f)]((r, k) => t.eos);
      for pos := 0 to f.processed
        invariant forall r, k :: 0 <= r < Count(f) && 0 <= k < Width(f) ==>
          cells[r, k] == CellValue(f, t.eos, pos, r, k)
      {
        var valid := offsets[pos] < f.lengths[reqIndices[pos]];
        assert FoundAt(f, reqIndices[pos], offsets[pos], pos);
        label Before:
        cells[reqIndices[pos], offsets[pos]] := if valid then f.inputIds[pos] else t.eos;
        forall r, k | 0 <= r < Count(f) && 0 <= k < Width(f) ensures cells[r, k] == CellValue(f, t.eos, pos + 1, r, k) {
          CellStep(f, t.eos, rows.Length, pos, r, k);
          assert old@Before(cells[r, k]) == CellValue(f, t.eos, pos, r, k);
        }
      }
      padded := seq(Count(f), r requires 0 <= r < Count(f) reads cells =>
        seq(Width(f), k requires 0 <= k < Width(f) reads cells => cells[r, k]));
      forall r | 0 <= r < Count(f) ensures RowPadded(f, t.eos, rows.Length, padded, r) {
        LengthFits(f, rows.Length, r);
        FullRow(f, t.eos, rows.Length, padded[r], r);
      }
    }

    /** Ids of every processed token, each from its own n-wide window. */
    method NgramIds(f: Forward, b: PleBatch) returns (ids: seq<seq<int>>)
      requires Valid() && ForwardOk(f, rows.Length) && Prepared(t, f, rows[..], b)
      ensures |ids| == f.processed
      ensures forall r, o :: 0 <= r < Count(f) && 0 <= o < f.lengths[r] ==> IdServed(t, f, rows[..], b, ids, r, o)
    {
      hide IdsAt, ReqOf, Base, Span, Width;
      ids := [];
      for pos := 0 to f.processed
        invariant |ids| == pos
        invariant forall k :: 0 <= k < pos ==>
          WindowFits(t, f, b, k) && ids[k] == IdsAt(t, WindowOf(t, f, b, k), t.n - 1)
      {
        WindowInRow(t, f, rows[..], b, pos);
        ids := ids + [IdsAt(t, WindowOf(t, f, b, pos), t.n - 1)];
      }
      forall r, o | 0 <= r < Count(f) && 0 <= o < f.lengths[r] ensures IdServed(t, f, rows[..], b, ids, r, o) {
        LengthFits(f, rows.Length, r);
        PlaceIn(f, rows.Length, r, o);
        WindowIsRun(t, f, rows[..], b, r, o);
      }
    }

    /** After every layer has read the batch: move each row's context past its tokens, and snapshot. */
    method Commit(f: Forward, b: PleBatch)
      requires Valid() && ForwardOk(f, rows.Length) && Prepared(t, f, rows[..], b)
      requires SeparateTargets(f, b, rows.Length)
      modifies rows, this`intermediate
      ensures Valid() && CommittedRows(t, f, b, old(rows[..]), rows[..])
      ensures f.mode.Verify? && f.processed > 0 ==> StepsRecorded(t, f, b, intermediate)
      ensures !f.mode.Verify? || f.processed == 0 ==> intermediate == old(intermediate)
    {
      if f.processed == 0 {
        return;
      }
      hide ForwardOk, Prepared, Base, Span, StateIndex, Written, StepsOf, RowCommitted, Untouched;
      ContextShape(t, f, rows[..], b);
      if f.mode.Verify? {
        intermediate := StepContexts(t, f, b, rows.Length);
        return;
      }
      ghost var before := rows[..];
      var next := NextContexts(t, f, b, rows.Length);
      forall r | 0 <= r < Count(f) ensures b.stateIndices[r] < rows.Length {
        assert RowShaped(t, f, rows.Length, b, r);
      }
      SetContexts(b.stateIndices, next);
      ghost var mid := rows[..];
      if TrackActive(f) {
        var indices, values := Snapshots(t, f, b, rows.Length);
        SnapshotTargetsDistinct(t, f, rows.Length, b, indices, values);
        SetContexts(indices, values);
        CommitsTracked(t, f, b, before, mid, rows[..], next, indices, values);
      } else {
        CommitsUntracked(t, f, b, before, mid, next);
      }
    }
  }

  /** Shapes the committed columns rely on. */
  ghost predicate Shaped(t: Table, f: Forward, slotCount: nat, b: PleBatch) {
    t.n >= 1 && Count(f) == |f.lengths| == |b.context| == |b.stateIndices| && b.lengths == f.lengths &&
    (f.track.Some? ==> TrackOk(f.track.value, Count(f), slotCount)) &&
    (f.mode.Decode? ==> b.rowWidth == 1) && forall r :: 0 <= r < Count(f) ==> RowShaped(t, f, slotCount, b, r)
  }

  ghost predicate RowShaped(t: Table, f: Forward, slotCount: nat, b: PleBatch, r: nat)
    requires r < |f.lengths| && r < |b.context| && r < |b.stateIndices|
  {
    f.lengths[r] <= b.rowWidth && |b.context[r]| == t.n - 1 + b.rowWidth && b.stateIndices[r] < slotCount &&
    (f.mode.Decode? ==> f.lengths[r] == 1)
  }

  /** Contexts after each verify step: a sliding window over the row, eos at steps past its length. */
  method StepContexts(t: Table, f: Forward, b: PleBatch, ghost slotCount: nat) returns (steps: seq<seq<seq<int>>>)
    requires Shaped(t, f, slotCount, b)
    ensures StepsRecorded(t, f, b, steps)
  {
    forall r | 0 <= r < Count(f) ensures |b.context[r]| == t.n - 1 + b.rowWidth {
      assert RowShaped(t, f, slotCount, b, r);
    }
    steps := seq(Count(f), r requires 0 <= r < Count(f) && |b.context[r]| == t.n - 1 + b.rowWidth =>
      seq(b.rowWidth, j requires 0 <= j < b.rowWidth =>
        if j < b.lengths[r] then ContextColumns(t, b.context[r], j + 1) else Eos(t.eos, t.n - 1)));
  }

  /** The context each row moves on to: a slice on the one-token path, a gather elsewhere. */
  method NextContexts(t: Table, f: Forward, b: PleBatch, ghost slotCount: nat) returns (next: seq<seq<int>>)
    requires Shaped(t, f, slotCount, b)
    ensures |next| == Count(f) == |f.lengths| == |b.context|
    ensures forall r :: 0 <= r < Count(f) ==>
      f.lengths[r] + t.n - 1 <= |b.context[r]| && next[r] == ContextColumns(t, b.context[r], f.lengths[r])
  {
    forall r | 0 <= r < Count(f)
      ensures f.lengths[r] + t.n - 1 <= |b.context[r]|
      ensures f.mode.Decode? ==> |b.context[r]| == t.n && f.lengths[r] == 1
    {
      assert RowShaped(t, f, slotCount, b, r);
    }
    if f.mode.Decode? && f.mode.fast {
      next := seq(Count(f), r requires 0 <= r < Count(f) && |b.context[r]| == t.n => b.context[r][b.rowWidth..]);
    } else {
      next := seq(Count(f), r requires 0 <= r < Count(f) && f.lengths[r] + t.n - 1 <= |b.context[r]| =>
        ContextColumns(t, b.context[r], f.lengths[r]));
    }
  }

  /** Snapshot slots, and the context each takes. */
  method Snapshots(t: Table, f: Forward, b: PleBatch, ghost slotCount: nat) returns (indices: seq<nat>,
                   values: seq<seq<int>>)
    requires Shaped(t, f, slotCount, b) && TrackActive(f)
    ensures |indices| == |values| == Count(f) == |f.lengths| == |b.context|
    ensures forall r :: 0 <= r < Count(f) ==> Snapshot(t, f, b, r, indices[r], values[r])
  {
    forall r | 0 <= r < Count(f)
      ensures TrackTarget(f, r) == Some((KeptSlot(f, r), KeptLength(f, r)))
      ensures KeptLength(f, r) + t.n - 1 <= |b.context[r]|
    {
      assert RowShaped(t, f, slotCount, b, r);
      TargetIsKept(f, r);
    }
    indices := seq(Count(f), r requires 0 <= r < Count(f) && TrackTarget(f, r).Some? => TrackTarget(f, r).value.0);
    values := seq(Count(f), r requires 0 <= r < Count(f) && TrackTarget(f, r).Some? &&
        TrackTarget(f, r).value.1 + t.n - 1 <= |b.context[r]| =>
      ContextColumns(t, b.context[r], TrackTarget(f, r).value.1));
  }

  ghost predicate Snapshot(t: Table, f: Forward, b: PleBatch, r: nat, slot: nat, value: seq<int>)
    requires r < Count(f) == |f.lengths| == |b.context|
    requires f.track.Some? ==> r < |f.track.value.indices| && r < |f.track.value.mask|
    requires f.track.Some? && f.track.value.aligned.Some? ==> r < |f.track.value.aligned.value|
  {
    t.n >= 1 && slot == KeptSlot(f, r) && KeptLength(f, r) + t.n - 1 <= |b.context[r]| &&
    value == ContextColumns(t, b.context[r], KeptLength(f, r))
  }

  predicate TrackActive(f: Forward) {
    f.track.Some? && (f.mode.Decode? || f.track.value.aligned.Some?)
  }

  lemma ContextShape(t: Table, f: Forward, rows: seq<seq<int>>, b: PleBatch)
    requires ValidTable(t) && RowsOk(t, rows) && ForwardOk(f, |rows|) && Prepared(t, f, rows, b)
    ensures b.rowWidth == Width(f) && Shaped(t, f, |rows|, b)
  {
    forall r | 0 <= r < Count(f) ensures RowShaped(t, f, |rows|, b, r) {
      assert RowPrepared(t, f, rows, b, r);
      LengthFits(f, |rows|, r);
      StateIndexIs(f, |rows|, r);
    }
  }

  /** Slot a row is snapshotted to, 0 for none. */
  function SnapshotSlot(f: Forward, r: nat): nat
    requires r < Count(f) == |f.lengths|
    requires f.track.Some? ==> r < |f.track.value.indices| && r < |f.track.value.mask|
    requires f.track.Some? && f.track.value.aligned.Some? ==> r < |f.track.value.aligned.value|
  {
    var k := TrackTarget(f, r);
    if k.Some? then k.value.0 else 0
  }

  /** Real slots are written once each. */
  ghost predicate SeparateTargets(f: Forward, b: PleBatch, slotCount: nat)
    requires ForwardOk(f, slotCount)
  {
    |b.stateIndices| == Count(f) && DistinctNonzero(b.stateIndices) &&
    (forall r :: 0 <= r < Count(f) && KeptSlot(f, r) != 0 ==> KeptSlot(f, r) !in b.stateIndices) &&
    forall r, r' :: 0 <= r < r' < Count(f) && KeptSlot(f, r) != 0 ==> KeptSlot(f, r) != KeptSlot(f, r')
  }

  /** Row r's slot holds its history after the run, its snapshot slot the history at the boundary. */
  ghost predicate RowCommitted(t: Table, f: Forward, b: PleBatch, after: seq<seq<int>>, r: nat)
    requires t.n >= 1 && ForwardOk(f, |after|) && r < Count(f) == |b.stateIndices| == |b.context|
  {
    f.lengths[r] + t.n - 1 <= |b.context[r]| && b.stateIndices[r] < |after| && KeptSlot(f, r) < |after| &&
    (b.stateIndices[r] != 0 ==> after[b.stateIndices[r]] == ContextColumns(t, b.context[r], f.lengths[r])) &&
    (KeptSlot(f, r) != 0 ==>
      after[KeptSlot(f, r)] == ContextColumns(t, b.context[r], KeptLength(f, r)))
  }

  /** Neither a row's slot nor a snapshot's. */
  ghost predicate Untouched(f: Forward, b: PleBatch, slotCount: nat, slot: nat)
    requires ForwardOk(f, slotCount)
  {
    slot !in b.stateIndices && forall r :: 0 <= r < Count(f) ==> KeptSlot(f, r) != slot
  }

  /** Every row is committed and every other real slot holds what it held; verify and empty batches
      change nothing. */
  ghost predicate CommittedRows(t: Table, f: Forward, b: PleBatch, before: seq<seq<int>>, after: seq<seq<int>>) {
    RowsOk(t, before) && RowsOk(t, after) && |after| == |before| && ForwardOk(f, |after|) &&
    |b.stateIndices| == |b.context| == Count(f) &&
    if f.mode.Verify? || f.processed == 0 then after == before
    else
      (forall r :: 0 <= r < Count(f) ==> RowCommitted(t, f, b, after, r)) &&
      forall slot :: 0 < slot < |before| && Untouched(f, b, |before|, slot) ==> after[slot] == before[slot]
  }

  lemma CommitsUntracked(t: Table, f: Forward, b: PleBatch, before: seq<seq<int>>, after: seq<seq<int>>,
                         next: seq<seq<int>>)
    requires ForwardOk(f, |before|) && Shaped(t, f, |before|, b) && SeparateTargets(f, b, |before|)
    requires !f.mode.Verify? && f.processed > 0 && !TrackActive(f)
    requires Written(t, before, after, b.stateIndices, next, Count(f))
    requires forall r :: 0 <= r < Count(f) ==>
      f.lengths[r] + t.n - 1 <= |b.context[r]| && next[r] == ContextColumns(t, b.context[r], f.lengths[r])
    ensures CommittedRows(t, f, b, before, after)
  {
    forall r | 0 <= r < Count(f) ensures RowCommitted(t, f, b, after, r) {
    }
  }

  lemma CommitsTracked(t: Table, f: Forward, b: PleBatch, before: seq<seq<int>>, mid: seq<seq<int>>,
                       after: seq<seq<int>>, next: seq<seq<int>>, indices: seq<nat>, values: seq<seq<int>>)
    requires ForwardOk(f, |before|) && Shaped(t, f, |before|, b) && SeparateTargets(f, b, |before|)
    requires !f.mode.Verify? && f.processed > 0 && |indices| == |values| == Count(f)
    requires Written(t, before, mid, b.stateIndices, next, Count(f))
    requires Written(t, mid, after, indices, values, Count(f))
    requires forall r :: 0 <= r < Count(f) ==> Snapshot(t, f, b, r, indices[r], values[r])
    requires forall r :: 0 <= r < Count(f) ==>
      f.lengths[r] + t.n - 1 <= |b.context[r]| && next[r] == ContextColumns(t, b.context[r], f.lengths[r])
    ensures CommittedRows(t, f, b, before, after)
  {
    hide TrackTarget, ContextColumns;
    assert forall r :: 0 <= r < Count(f) ==> KeptSlot(f, r) == indices[r];
    forall r | 0 <= r < Count(f) ensures RowCommitted(t, f, b, after, r) {
      assert Snapshot(t, f, b, r, indices[r], values[r]);
      var slot := b.stateIndices[r];
      if slot != 0 {
        forall k | 0 <= k < Count(f) ensures indices[k] != slot {
          assert KeptSlot(f, k) != 0 ==> KeptSlot(f, k) !in b.stateIndices;
        }
      }
    }
  }

  lemma SnapshotTargetsDistinct(t: Table, f: Forward, slotCount: nat, b: PleBatch, indices: seq<nat>,
                                values: seq<seq<int>>)
    requires ForwardOk(f, slotCount) && Shaped(t, f, slotCount, b) && SeparateTargets(f, b, slotCount)
    requires |indices| == |values| == Count(f)
    requires forall r :: 0 <= r < Count(f) ==> Snapshot(t, f, b, r, indices[r], values[r])
    ensures DistinctNonzero(indices)
    ensures forall r :: 0 <= r < Count(f) ==> indices[r] < slotCount && |values[r]| == t.n - 1
  {
    assert forall r :: 0 <= r < Count(f) ==> KeptSlot(f, r) == indices[r];
  }

  /** Contexts after each verify step of row r; steps past the row's length hold eos. */
  ghost predicate StepsOf(t: Table, f: Forward, b: PleBatch, r: nat, steps: seq<seq<int>>)
    requires t.n >= 1 && r < Count(f) == |f.lengths| && r < |b.context|
  {
    |steps| == b.rowWidth && forall j :: 0 <= j < b.rowWidth ==>
      steps[j] == if j < f.lengths[r] && j + t.n <= |b.context[r]| then ContextColumns(t, b.context[r], j + 1)
                  else Eos(t.eos, t.n - 1)
  }

  ghost predicate StepsRecorded(t: Table, f: Forward, b: PleBatch, intermediate: seq<seq<seq<int>>>)
    requires t.n >= 1 && Count(f) == |f.lengths|
  {
    |intermediate| == Count(f) == |b.context| &&
    forall r :: 0 <= r < Count(f) ==> StepsOf(t, f, b, r, intermediate[r])
  }

  // ---- Windows -----------------------------------------------------------------------------

  predicate WindowFits(t: Table, f: Forward, b: PleBatch, pos: nat) {
    pos < |b.reqIndices| == |b.offsets| && b.reqIndices[pos] < |b.context| &&
    b.offsets[pos] + t.n <= |b.context[b.reqIndices[pos]]| &&
    (f.mode.Decode? ==> |b.context[b.reqIndices[pos]]| == t.n)
  }

  /** The n columns ending at a token: a slice of its row, or the whole row on the one-token path. */
  function WindowOf(t: Table, f: Forward, b: PleBatch, pos: nat): (w: seq<int>)
    requires WindowFits(t, f, b, pos)
    ensures |w| == t.n
  {
    var row := b.context[b.reqIndices[pos]];
    if f.mode.Decode? && f.mode.fast then row else row[b.offsets[pos]..b.offsets[pos] + t.n]
  }

  lemma WindowInRow(t: Table, f: Forward, rows: seq<seq<int>>, b: PleBatch, pos: nat)
    requires ValidTable(t) && RowsOk(t, rows) && ForwardOk(f, |rows|) && Prepared(t, f, rows, b) && pos < f.processed
    ensures WindowFits(t, f, b, pos)
  {
    hide ReqOf, Base, Span, StateIndex;
    ContextShape(t, f, rows, b);
    assert FoundAt(f, b.reqIndices[pos], b.offsets[pos], pos) && RowShaped(t, f, |rows|, b, b.reqIndices[pos]);
  }

  lemma RowInPool(t: Table, f: Forward, rows: seq<seq<int>>, b: PleBatch, r: nat)
    requires ValidTable(t) && RowsOk(t, rows) && ForwardOk(f, |rows|) && Prepared(t, f, rows, b) && r < Count(f)
    ensures f.lengths[r] > 0 ==> 0 <= Base(f, r) && Base(f, r) + f.lengths[r] <= f.processed
    ensures RowShaped(t, f, |rows|, b, r) && b.context[r] == rows[b.stateIndices[r]] + PaddedRow(f, t.eos, r)
  {
    hide ReqOf, Base, Span, StateIndex, Width, PaddedRow, Sum, FoundAt;
    LengthFits(f, |rows|, r);
    ContextShape(t, f, rows, b);
    assert RowPrepared(t, f, rows, b, r);
  }

  ghost predicate IdServed(t: Table, f: Forward, rows: seq<seq<int>>, b: PleBatch, ids: seq<seq<int>>, r: nat, o: nat)
    requires ValidTable(t) && RowsOk(t, rows) && ForwardOk(f, |rows|) && Prepared(t, f, rows, b)
    requires r < Count(f) && o < f.lengths[r] && |ids| == f.processed
  {
    LengthFits(f, |rows|, r);
    PlaceIn(f, |rows|, r, o);
    RowInPool(t, f, rows, b, r);
    ids[Base(f, r) + o] == IdsAt(t, rows[b.stateIndices[r]] + Run(f, r), t.n - 1 + o)
  }

  /** A token's window hashes to what its row's history and run hash to. */
  lemma WindowIsRun(t: Table, f: Forward, rows: seq<seq<int>>, b: PleBatch, r: nat, o: nat)
    requires ValidTable(t) && RowsOk(t, rows) && ForwardOk(f, |rows|) && Prepared(t, f, rows, b)
    requires r < Count(f) && o < f.lengths[r]
    ensures 0 <= Base(f, r) + o < f.processed && 0 <= Base(f, r) && Base(f, r) + f.lengths[r] <= f.processed
    ensures WindowFits(t, f, b, Base(f, r) + o) && b.stateIndices[r] < |rows|
    ensures IdsAt(t, WindowOf(t, f, b, Base(f, r) + o), t.n - 1)
         == IdsAt(t, rows[b.stateIndices[r]] + Run(f, r), t.n - 1 + o)
  {
    hide ReqOf, Base, Span, StateIndex, Window, RowIds, Width;
    ContextShape(t, f, rows, b);
    LengthFits(f, |rows|, r);
    PlaceIn(f, |rows|, r, o);
    var pos := Base(f, r) + o;
    WindowInRow(t, f, rows, b, pos);
    RowInPool(t, f, rows, b, r);
    assert FoundAt(f, b.reqIndices[pos], b.offsets[pos], pos);
    var a, row := rows[b.stateIndices[r]] + Run(f, r), b.context[r];
    assert row == a + Eos(t.eos, Width(f) - f.lengths[r]);
    var w := WindowOf(t, f, b, pos);
    assert w == row[o..o + t.n] by {
      if f.mode.Decode? { assert o == 0; }
    }
    assert w == a[o..o + t.n];
    var i: nat, j: nat := t.n - 1, t.n - 1 + o;
    assert forall k :: 0 <= k < t.n ==> SameBack(w, i, a, j, k);
    WindowLocal(w, i, a, j, t.eos, t.n);
  }

  ghost predicate RowPadded(f: Forward, eos: int, slotCount: nat, padded: seq<seq<int>>, r: nat)
    requires ForwardOk(f, slotCount) && WholeRows(f) && r < Count(f) == |padded|
  {
    LengthFits(f, slotCount, r);
    padded[r] == PaddedRow(f, eos, r)
  }

  /** What a cell holds once positions below pos have been scattered. */
  ghost function CellValue(f: Forward, eos: int, pos: nat, r: nat, k: nat): int
    requires WholeRows(f) && r < Count(f) == |f.lengths| && pos <= |f.inputIds|
  {
    if k < f.lengths[r] && 0 <= Base(f, r) + k < pos then f.inputIds[Base(f, r) + k] else eos
  }

  ghost predicate CellStepped(f: Forward, eos: int, pos: nat, r: nat, k: nat)
    requires WholeRows(f) && r < Count(f) == |f.lengths| && pos < |f.inputIds|
  {
    CellValue(f, eos, pos + 1, r, k) ==
      if r == ReqOf(f, pos) && k == pos - Base(f, r) then (if k < f.lengths[r] then f.inputIds[pos] else eos)
      else CellValue(f, eos, pos, r, k)
  }

  /** Scattering position pos changes its own cell and no other. */
  lemma CellStep(f: Forward, eos: int, slotCount: nat, pos: nat, r: nat, k: nat)
    requires ForwardOk(f, slotCount) && WholeRows(f) && pos < f.processed && r < Count(f) && k < Width(f)
    ensures CellStepped(f, eos, pos, r, k)
  {
    hide ReqOf, Base, Span, Width, Sum;
    Place(f, slotCount, pos);
    LengthFits(f, slotCount, r);
    if k < f.lengths[r] && Base(f, r) + k == pos {
      PlaceIn(f, slotCount, r, k);
    }
  }

  lemma FullRow(f: Forward, eos: int, slotCount: nat, row: seq<int>, r: nat)
    requires ForwardOk(f, slotCount) && WholeRows(f) && r < Count(f) && |row| == Width(f)
    requires forall k :: 0 <= k < Width(f) ==> row[k] == CellValue(f, eos, f.processed, r, k)
    ensures f.lengths[r] <= Width(f)
    ensures f.lengths[r] > 0 ==> 0 <= Base(f, r) && Base(f, r) + f.lengths[r] <= |f.inputIds|
    ensures row == PaddedRow(f, eos, r)
  {
    hide ReqOf, Base, Span, Width, Sum;
    LengthFits(f, slotCount, r);
    forall k | 0 <= k < Width(f) ensures row[k] == PaddedRow(f, eos, r)[k] {
    }
  }
}

/** The short convolution's state pool: rows read by slot, rolled forward, and written back with snapshots,
    slot 0 taking padding. */
module ShortConvPool {
  import opened Wrappers
  import opened PleHistory
  import opened PleRuns
  import opened SlotWrites
  import Conv = CausalConv

  /** Every live slot holds the last columns of the zero-padded column history it stands for. */
  ghost predicate Stands(f: Conv.Filter, rows: seq<seq<real>>, live: map<nat, seq<real>>)
    requires Conv.ValidFilter(f)
  {
    forall slot :: slot in live ==> 0 < slot < |rows| && rows[slot] == Conv.StateOf(live[slot], Conv.Span(f))
  }

  /** A row with a slot names what that slot stands for. */
  ghost predicate RowsGiven(fw: Forward, slotCount: nat, bases: seq<Option<seq<real>>>, live: map<nat, seq<real>>)
    requires ForwardOk(fw, slotCount) && WholeRows(fw)
  {
    |bases| == Count(fw) && forall r :: 0 <= r < Count(fw) ==> RowGiven(fw, slotCount, bases[r], live, r)
  }

  ghost predicate RowGiven(fw: Forward, slotCount: nat, base: Option<seq<real>>, live: map<nat, seq<real>>, r: nat)
    requires ForwardOk(fw, slotCount) && WholeRows(fw) && r < Count(fw)
  {
    var slot := SlotOf(fw, slotCount, r);
    (slot != 0 <==> base.Some?) && (base.Some? ==> slot in live && live[slot] == base.value)
  }

  /** The part of a flat sequence that belongs to row r's tokens. */
  ghost function ColsOf(fw: Forward, slotCount: nat, flat: seq<real>, r: nat): (x: seq<real>)
    requires ForwardOk(fw, slotCount) && WholeRows(fw) && r < Count(fw) && |flat| == fw.processed
    ensures |x| == fw.lengths[r]
  {
    LengthFits(fw, slotCount, r);
    if fw.lengths[r] == 0 then [] else flat[Base(fw, r)..Base(fw, r) + fw.lengths[r]]
  }

  /** What committing row r does to what slots stand for. */
  ghost function ConvWrite(fw: Forward, slotCount: nat, x: seq<real>, base: Option<seq<real>>, r: nat): Write<seq<real>>
    requires ForwardOk(fw, slotCount) && WholeRows(fw) && r < Count(fw) && |x| == fw.lengths[r]
  {
    var had := if base.Some? then base.value else [];
    Write(base.Some?, SlotOf(fw, slotCount, r), had + x, KeptSlot(fw, r),
          if KeptSlot(fw, r) == 0 then [] else had + x[..KeptLength(fw, r)])
  }

  /** Columns of the row that its snapshot has seen. */
  function Boundary(fw: Forward, r: nat): (k: nat)
    requires r < Count(fw) == |fw.lengths|
    requires fw.track.Some? ==> r < |fw.track.value.indices| && r < |fw.track.value.mask|
    requires fw.track.Some? && fw.track.value.aligned.Some? ==> r < |fw.track.value.aligned.value|
    ensures k <= fw.lengths[r]
  {
    if TrackTarget(fw, r).Some? then TrackTarget(fw, r).value.1 else 0
  }

  ghost function ConvWrites(fw: Forward, slotCount: nat, cols: seq<real>, bases: seq<Option<seq<real>>>)
      : (ws: seq<Write<seq<real>>>)
    requires ForwardOk(fw, slotCount) && WholeRows(fw) && |bases| == Count(fw) && |cols| == fw.processed
    ensures |ws| == Count(fw)
  {
    seq(Count(fw), r requires 0 <= r < Count(fw) =>
      ConvWrite(fw, slotCount, ColsOf(fw, slotCount, cols, r), bases[r], r))
  }

  /** A row without a request of its own has whatever its state says as its past. */
  ghost function Past(base: Option<seq<real>>, state: seq<real>): seq<real> {
    if base.Some? then base.value else state
  }

  lemma StateIsItsOwnPast(f: Conv.Filter, state: seq<real>)
    requires Conv.ValidFilter(f) && |state| == Conv.Span(f)
    ensures Conv.StateOf(state, Conv.Span(f)) == state
  {
    forall i | 0 <= i < |state| ensures Conv.StateOf(state, |state|)[i] == state[i] {
      assert Conv.At(state, i) == state[i] && |state| - |state| + i == i;
    }
  }

  class StatePool {
    const f: Conv.Filter
    const act: real -> real
    const rows: array<seq<real>>
    var intermediate: seq<seq<seq<real>>>

    ghost predicate Valid()
      reads rows
    {
      Conv.ValidFilter(f) && rows.Length >= 1 && forall k :: 0 <= k < rows.Length ==> |rows[k]| == Conv.Span(f)
    }

    /** One batch of flat columns: outputs in the same flat order, then states written back and snapshotted. Verify
        batches write no state and record the state after each step. An empty batch changes nothing. */
    method ShortConv(fw: Forward, cols: seq<real>, ghost bases: seq<Option<seq<real>>>, ghost live: map<nat, seq<real>>)
      returns (outs: seq<real>)
      requires Valid() && Stands(f, rows[..], live) && ForwardOk(fw, rows.Length) && WholeRows(fw)
      requires SeparateSlots(fw, rows.Length) && RowsGiven(fw, rows.Length, bases, live) && |cols| == fw.processed
      modifies rows, this`intermediate
      ensures Valid() && |outs| == fw.processed
      ensures fw.processed == 0 ==> rows[..] == old(rows[..]) && intermediate == old(intermediate)
      ensures fw.processed > 0 && fw.mode.Verify? ==>
        rows[..] == old(rows[..]) && Recorded(f, fw, rows.Length, cols, bases, intermediate)
      ensures fw.processed > 0 && !fw.mode.Verify? ==> intermediate == old(intermediate)
      ensures fw.processed > 0 && !fw.mode.Verify? ==>
        Stands(f, rows[..], AppliedAll(live, ConvWrites(fw, rows.Length, cols, bases)))
      ensures fw.processed > 0 ==> forall r :: 0 <= r < Count(fw) && bases[r].Some? ==>
        Conv.AreOutputs(f, act, ColsOf(fw, rows.Length, outs, r), bases[r].value, ColsOf(fw, rows.Length, cols, r))
    {
      hide SlotOf, KeptSlot, ForwardOk, WholeRows, TrackTarget, Width, Conv.StateOf, Conv.Span, Conv.AreOutputs,
        Conv.AreSteps, AppliedAll, ConvWrites, ColsOf, RowGiven, PaddedAt, Recorded;
      if fw.processed == 0 {
        return cols;
      }
      ghost var before := rows[..];
      var padded := ScatterColumns(fw, cols, rows.Length);
      var convolved, steps, indices, nexts, snapshots := ConvolveRows(fw, cols, padded, bases, live);
      outs := GatherOutputs(f, act, fw, cols, bases, convolved, rows.Length);
      if fw.mode.Verify? {
        intermediate := steps;
        RecordedAll(f, act, fw, rows.Length, cols, bases, convolved, steps, nexts, snapshots);
        return;
      }
      SlotsApart(fw, rows.Length, indices);
      Scatter(rows, indices, nexts);
      ghost var mid := rows[..];
      if TrackActive(fw) {
        var targets := SnapshotTargets(fw, rows.Length);
        Scatter(rows, targets, snapshots);
        StandsAfter(f, act, fw, cols, bases, live, before, mid, rows[..], convolved, steps, indices, nexts, targets,
                    snapshots);
      } else {
        NoSnapshots(fw, rows.Length);
        StandsAfter(f, act, fw, cols, bases, live, before, mid, rows[..], convolved, steps, indices, nexts,
                    seq(Count(fw), r => 0), snapshots);
      }
    }

    /** Every row's convolution, from the states its slot holds. */
    method ConvolveRows(fw: Forward, ghost cols: seq<real>, padded: seq<seq<real>>, ghost bases: seq<Option<seq<real>>>,
                        ghost live: map<nat, seq<real>>)
      returns (outs: seq<seq<real>>, steps: seq<seq<seq<real>>>, indices: seq<nat>, nexts: seq<seq<real>>,
               snapshots: seq<seq<real>>)
      requires Valid() && Stands(f, rows[..], live) && ForwardOk(fw, rows.Length) && WholeRows(fw)
      requires RowsGiven(fw, rows.Length, bases, live) && |cols| == fw.processed && |padded| == Count(fw)
      requires forall r :: 0 <= r < Count(fw) ==> RowHolds(fw, cols, padded[r], r)
      ensures |outs| == |steps| == |indices| == |nexts| == |snapshots| == Count(fw)
      ensures forall r :: 0 <= r < Count(fw) ==> indices[r] == SlotOf(fw, rows.Length, r) && indices[r] < rows.Length
      ensures forall r :: 0 <= r < Count(fw) ==> |nexts[r]| == |snapshots[r]| == Conv.Span(f) && |outs[r]| == Width(fw)
      ensures forall r :: 0 <= r < Count(fw) && bases[r].Some? ==>
        RowConvolved(f, act, fw, rows.Length, cols, bases[r].value, r, outs[r], steps[r], nexts[r], snapshots[r])
    {
      hide Width, StateIndex, Conv.StateOf, Conv.Span, Conv.AreOutputs, Conv.AreSteps, TrackTarget, ColsOf, PaddedAt,
        SlotOf, RowConvolved, RowGiven, RowHolds, ForwardOk, WholeRows;
      outs, steps, indices, nexts, snapshots := [], [], [], [], [];
      for r := 0 to Count(fw)
        invariant |outs| == |steps| == |indices| == |nexts| == |snapshots| == r
        invariant forall k :: 0 <= k < r ==> indices[k] == SlotOf(fw, rows.Length, k) && indices[k] < rows.Length
        invariant forall k :: 0 <= k < r ==> |nexts[k]| == |snapshots[k]| == Conv.Span(f) && |outs[k]| == Width(fw)
        invariant forall k :: 0 <= k < r && bases[k].Some? ==>
          RowConvolved(f, act, fw, rows.Length, cols, bases[k].value, k, outs[k], steps[k], nexts[k], snapshots[k])
      {
        var out, next, rowSteps, snapshot, slot := ConvolveRow(fw, cols, padded[r], bases, live, r);
        outs, steps, indices, nexts, snapshots :=
          outs + [out], steps + [rowSteps], indices + [slot], nexts + [next], snapshots + [snapshot];
      }
    }

    /** One row's convolution, from the state its slot holds. */
    method ConvolveRow(fw: Forward, ghost cols: seq<real>, row: seq<real>, ghost bases: seq<Option<seq<real>>>,
                       ghost live: map<nat, seq<real>>, r: nat)
      returns (out: seq<real>, next: seq<real>, rowSteps: seq<seq<real>>, snapshot: seq<real>, slot: nat)
      requires Valid() && Stands(f, rows[..], live) && ForwardOk(fw, rows.Length) && WholeRows(fw)
      requires RowsGiven(fw, rows.Length, bases, live) && |cols| == fw.processed && r < Count(fw)
      requires RowHolds(fw, cols, row, r)
      ensures slot == SlotOf(fw, rows.Length, r) < rows.Length
      ensures |next| == |snapshot| == Conv.Span(f) && |out| == Width(fw)
      ensures bases[r].Some? ==>
        RowConvolved(f, act, fw, rows.Length, cols, bases[r].value, r, out, rowSteps, next, snapshot)
    {
      hide Width, StateIndex, Conv.StateOf, Conv.Span, Conv.AreOutputs, Conv.AreSteps, TrackTarget, ColsOf, PaddedAt,
        SlotOf;
      StateIndexIs(fw, rows.Length, r);
      TargetIsKept(fw, r);
      LengthFits(fw, rows.Length, r);
      assert RowGiven(fw, rows.Length, bases[r], live, r);
      RowIsCols(fw, rows.Length, cols, row, r);
      slot := StateIndex(fw, r);
      var state := rows[slot];
      StateIsItsOwnPast(f, state);
      ghost var x, boundary := ColsOf(fw, rows.Length, cols, r), Boundary(fw, r);
      assert row[..boundary] == x[..boundary];
      out, next, rowSteps, snapshot :=
        Conv.ShortConvRow(f, act, state, row, fw.lengths[r], Boundary(fw, r), Past(bases[r], state));
    }
  }

  /** Row r of the padded batch: the flat positions it spans, then zeros. */
  ghost predicate RowHolds(fw: Forward, cols: seq<real>, row: seq<real>, r: nat)
    requires WholeRows(fw) && r < Count(fw) == |fw.lengths|
  {
    |row| == Width(fw) && forall k :: 0 <= k < Width(fw) ==> row[k] == PaddedAt(fw, cols, |cols|, r, k)
  }

  /** What a cell holds once positions below upTo have been scattered. */
  ghost function PaddedAt(fw: Forward, cols: seq<real>, upTo: nat, r: nat, k: nat): real
    requires WholeRows(fw) && r < Count(fw) == |fw.lengths| && upTo <= |cols|
  {
    if k < Span(fw, r) && 0 <= Base(fw, r) + k < upTo then cols[Base(fw, r) + k] else 0.0
  }

  /** Scattering position upTo changes its own cell and no other. */
  lemma PaddedStep(fw: Forward, slotCount: nat, cols: seq<real>, upTo: nat, r: nat, k: nat)
    requires ForwardOk(fw, slotCount) && WholeRows(fw) && |cols| == fw.processed && upTo < |cols| && r < Count(fw)
    ensures PaddedAt(fw, cols, upTo + 1, r, k) ==
            if r == ReqOf(fw, upTo) && k == upTo - Base(fw, r) then cols[upTo] else PaddedAt(fw, cols, upTo, r, k)
  {
    hide ReqOf, Base, Span, Width;
    Place(fw, slotCount, upTo);
    if k < Span(fw, r) && Base(fw, r) + k == upTo {
      PlaceIn(fw, slotCount, r, k);
    }
  }

  /** padded[req, offset] = column, for every flat position, within its row's length or not. */
  method ScatterColumns(fw: Forward, cols: seq<real>, ghost slotCount: nat) returns (padded: seq<seq<real>>)
    requires ForwardOk(fw, slotCount) && WholeRows(fw) && |cols| == fw.processed
    ensures |padded| == Count(fw) && forall r :: 0 <= r < Count(fw) ==> RowHolds(fw, cols, padded[r], r)
  {
    hide ReqOf, Base, Span, Width, PaddedAt;
    var cells := new real[Count(fw), Width(fw)]((r, k) => 0.0);
    forall r, k | 0 <= r < Count(fw) && 0 <= k < Width(fw) ensures cells[r, k] == PaddedAt(fw, cols, 0, r, k) {
      NothingPadded(fw, cols, r, k);
    }
    for pos := 0 to fw.processed
      invariant forall r, k :: 0 <= r < Count(fw) && 0 <= k < Width(fw) ==> cells[r, k] == PaddedAt(fw, cols, pos, r, k)
    {
      Place(fw, slotCount, pos);
      label Before:
      var req := ReqOf(fw, pos);
      cells[req, pos - Base(fw, req)] := cols[pos];
      forall r, k | 0 <= r < Count(fw) && 0 <= k < Width(fw) ensures cells[r, k] == PaddedAt(fw, cols, pos + 1, r, k) {
        PaddedStep(fw, slotCount, cols, pos, r, k);
        assert old@Before(cells[r, k]) == PaddedAt(fw, cols, pos, r, k);
      }
    }
    padded := seq(Count(fw), r requires 0 <= r < Count(fw) reads cells =>
      seq(Width(fw), k requires 0 <= k < Width(fw) reads cells => cells[r, k]));
  }

  lemma NothingPadded(fw: Forward, cols: seq<real>, r: nat, k: nat)
    requires WholeRows(fw) && r < Count(fw) == |fw.lengths|
    ensures PaddedAt(fw, cols, 0, r, k) == 0.0
  {
  }

  /** A padded row starts with its tokens' columns. */
  lemma RowIsCols(fw: Forward, slotCount: nat, cols: seq<real>, row: seq<real>, r: nat)
    requires ForwardOk(fw, slotCount) && WholeRows(fw) && r < Count(fw) && |cols| == fw.processed
    requires RowHolds(fw, cols, row, r)
    ensures fw.lengths[r] <= |row| && row[..fw.lengths[r]] == ColsOf(fw, slotCount, cols, r)
  {
    hide Base, Span, Width;
    LengthFits(fw, slotCount, r);
    forall k | 0 <= k < fw.lengths[r] ensures row[..fw.lengths[r]][k] == ColsOf(fw, slotCount, cols, r)[k] {
      assert row[k] == PaddedAt(fw, cols, |cols|, r, k);
    }
  }

  /** Every flat position's output, read back from its row and offset. */
  method GatherOutputs(ghost f: Conv.Filter, ghost act: real -> real, fw: Forward, ghost cols: seq<real>,
                       ghost bases: seq<Option<seq<real>>>, convolved: seq<seq<real>>, ghost slotCount: nat)
    returns (outs: seq<real>)
    requires Conv.ValidFilter(f) && ForwardOk(fw, slotCount) && WholeRows(fw) && |cols| == fw.processed
    requires |bases| == |convolved| == Count(fw) && forall r :: 0 <= r < Count(fw) ==> |convolved[r]| == Width(fw)
    requires forall r :: 0 <= r < Count(fw) && bases[r].Some? ==>
      RowAnswers(f, act, fw, slotCount, cols, bases[r].value, r, convolved[r])
    ensures |outs| == fw.processed
    ensures forall r :: 0 <= r < Count(fw) && bases[r].Some? ==>
      Conv.AreOutputs(f, act, ColsOf(fw, slotCount, outs, r), bases[r].value, ColsOf(fw, slotCount, cols, r))
  {
    hide ReqOf, Base, Span, Width, Conv.AreOutputs;
    outs := [];
    for pos := 0 to fw.processed
      invariant |outs| == pos
      invariant forall p :: 0 <= p < pos ==> GatheredAt(fw, convolved, p, outs[p])
    {
      Place(fw, slotCount, pos);
      var req := ReqOf(fw, pos);
      outs := outs + [convolved[req][pos - Base(fw, req)]];
    }
    forall r | 0 <= r < Count(fw) && bases[r].Some?
      ensures Conv.AreOutputs(f, act, ColsOf(fw, slotCount, outs, r), bases[r].value, ColsOf(fw, slotCount, cols, r))
    {
      assert RowAnswers(f, act, fw, slotCount, cols, bases[r].value, r, convolved[r]);
      GatheredRow(fw, slotCount, convolved, outs, r);
    }
  }

  ghost predicate GatheredAt(fw: Forward, convolved: seq<seq<real>>, pos: nat, v: real)
    requires WholeRows(fw) && Count(fw) == |fw.lengths| == |convolved|
  {
    var req := ReqOf(fw, pos);
    0 <= req < Count(fw) && 0 <= pos - Base(fw, req) < |convolved[req]| && v == convolved[req][pos - Base(fw, req)]
  }

  lemma GatheredRow(fw: Forward, slotCount: nat, convolved: seq<seq<real>>, outs: seq<real>, r: nat)
    requires ForwardOk(fw, slotCount) && WholeRows(fw) && |outs| == fw.processed && r < Count(fw) == |convolved|
    requires fw.lengths[r] <= |convolved[r]| && forall p :: 0 <= p < |outs| ==> GatheredAt(fw, convolved, p, outs[p])
    ensures ColsOf(fw, slotCount, outs, r) == convolved[r][..fw.lengths[r]]
  {
    hide ReqOf, Base, Span, Width;
    LengthFits(fw, slotCount, r);
    forall o | 0 <= o < fw.lengths[r] ensures ColsOf(fw, slotCount, outs, r)[o] == convolved[r][o] {
      PlaceIn(fw, slotCount, r, o);
      assert GatheredAt(fw, convolved, Base(fw, r) + o, outs[Base(fw, r) + o]);
    }
  }

  ghost predicate RowAnswers(f: Conv.Filter, act: real -> real, fw: Forward, slotCount: nat, cols: seq<real>,
                             base: seq<real>, r: nat, out: seq<real>)
    requires Conv.ValidFilter(f) && ForwardOk(fw, slotCount) && WholeRows(fw) && r < Count(fw) && |cols| == fw.processed
  {
    fw.lengths[r] <= |out| && Conv.AreOutputs(f, act, out[..fw.lengths[r]], base, ColsOf(fw, slotCount, cols, r))
  }

  /** The recorded verify steps of every request's row. */
  ghost predicate Recorded(f: Conv.Filter, fw: Forward, slotCount: nat, cols: seq<real>, bases: seq<Option<seq<real>>>,
                           steps: seq<seq<seq<real>>>)
    requires Conv.ValidFilter(f) && ForwardOk(fw, slotCount) && WholeRows(fw) && |cols| == fw.processed
  {
    |steps| == |bases| == Count(fw) && forall r :: 0 <= r < Count(fw) && bases[r].Some? ==>
      Conv.AreSteps(f, steps[r], bases[r].value, ColsOf(fw, slotCount, cols, r), Width(fw))
  }

  lemma RecordedAll(f: Conv.Filter, act: real -> real, fw: Forward, slotCount: nat, cols: seq<real>,
                    bases: seq<Option<seq<real>>>, outs: seq<seq<real>>, steps: seq<seq<seq<real>>>,
                    nexts: seq<seq<real>>, snapshots: seq<seq<real>>)
    requires Conv.ValidFilter(f) && ForwardOk(fw, slotCount) && WholeRows(fw) && |cols| == fw.processed
    requires |outs| == |steps| == |nexts| == |snapshots| == |bases| == Count(fw)
    requires forall r :: 0 <= r < Count(fw) && bases[r].Some? ==>
      RowConvolved(f, act, fw, slotCount, cols, bases[r].value, r, outs[r], steps[r], nexts[r], snapshots[r])
    ensures Recorded(f, fw, slotCount, cols, bases, steps)
  {
    hide Conv.AreSteps, Conv.AreOutputs, ColsOf, Width;
  }

  ghost predicate RowConvolved(f: Conv.Filter, act: real -> real, fw: Forward, slotCount: nat, cols: seq<real>,
                               base: seq<real>, r: nat, out: seq<real>, steps: seq<seq<real>>, next: seq<real>,
                               snapshot: seq<real>)
    requires Conv.ValidFilter(f) && ForwardOk(fw, slotCount) && WholeRows(fw) && r < Count(fw) && |cols| == fw.processed
  {
    var x := ColsOf(fw, slotCount, cols, r);
    RowAnswers(f, act, fw, slotCount, cols, base, r, out) && Conv.AreSteps(f, steps, base, x, Width(fw)) &&
    next == Conv.StateOf(base + x, Conv.Span(f)) &&
    (KeptSlot(fw, r) != 0 ==> snapshot == Conv.StateOf(base + x[..KeptLength(fw, r)], Conv.Span(f)))
  }

  lemma SlotsApart(fw: Forward, slotCount: nat, indices: seq<nat>)
    requires ForwardOk(fw, slotCount) && WholeRows(fw) && SeparateSlots(fw, slotCount) && |indices| == Count(fw)
    requires forall r :: 0 <= r < Count(fw) ==> indices[r] == SlotOf(fw, slotCount, r)
    ensures DistinctNonzero(indices)
  {
    hide SlotOf, KeptSlot;
  }

  /** Snapshot slots of an active batch. */
  method SnapshotTargets(fw: Forward, ghost slotCount: nat) returns (targets: seq<nat>)
    requires ForwardOk(fw, slotCount) && WholeRows(fw) && SeparateSlots(fw, slotCount) && TrackActive(fw)
    ensures |targets| == Count(fw) && DistinctNonzero(targets)
    ensures forall r :: 0 <= r < Count(fw) ==> targets[r] == KeptSlot(fw, r) && targets[r] < slotCount
  {
    hide SlotOf;
    targets := seq(Count(fw), r requires 0 <= r < Count(fw) && |fw.lengths| == Count(fw) &&
        |fw.track.value.indices| == |fw.track.value.mask| == Count(fw) &&
        (fw.track.value.aligned.Some? ==> |fw.track.value.aligned.value| == Count(fw)) => SnapshotSlot(fw, r));
    forall r | 0 <= r < Count(fw) ensures targets[r] == KeptSlot(fw, r) && targets[r] < slotCount {
      TargetIsKept(fw, r);
    }
  }

  lemma NoSnapshots(fw: Forward, slotCount: nat)
    requires ForwardOk(fw, slotCount) && !TrackActive(fw)
    ensures forall r :: 0 <= r < Count(fw) ==> KeptSlot(fw, r) == 0
  {
  }

  /** A written row or snapshot slot holds the columns it now stands for. */
  ghost predicate RowStands(f: Conv.Filter, rows: seq<seq<real>>, w: Write<seq<real>>)
    requires Conv.ValidFilter(f)
  {
    w.slot < |rows| && w.snap < |rows| && rows[w.slot] == Conv.StateOf(w.grown, Conv.Span(f)) &&
    (w.snap != 0 ==> rows[w.snap] == Conv.StateOf(w.kept, Conv.Span(f)))
  }

  lemma StandsWhenWritten(f: Conv.Filter, before: seq<seq<real>>, after: seq<seq<real>>, live: map<nat, seq<real>>,
                          ws: seq<Write<seq<real>>>)
    requires Conv.ValidFilter(f) && Stands(f, before, live) && SeparateWrites(ws) && |after| == |before|
    requires forall r :: 0 <= r < |ws| && ws[r].owned ==> RowStands(f, after, ws[r])
    requires forall slot :: 0 < slot < |before| && MissedBy(ws, slot) ==> after[slot] == before[slot]
    ensures Stands(f, after, AppliedAll(live, ws))
  {
    hide Conv.StateOf, Conv.Span, AppliedAll, SeparateWrites;
    AppliedAllIs(live, ws);
    var now := AppliedAll(live, ws);
    forall slot | slot in now ensures 0 < slot < |after| && after[slot] == Conv.StateOf(now[slot], Conv.Span(f)) {
      assert Accounted(live, ws, now, slot);
      if r :| 0 <= r < |ws| && ws[r].owned && (ws[r].slot == slot || ws[r].snap == slot) {
        assert WriteShows(now, ws[r]) && RowStands(f, after, ws[r]);
      }
    }
  }

  lemma StandsAfter(f: Conv.Filter, act: real -> real, fw: Forward, cols: seq<real>, bases: seq<Option<seq<real>>>,
                    live: map<nat, seq<real>>, before: seq<seq<real>>, mid: seq<seq<real>>, after: seq<seq<real>>,
                    outs: seq<seq<real>>, steps: seq<seq<seq<real>>>, indices: seq<nat>, nexts: seq<seq<real>>,
                    targets: seq<nat>, snapshots: seq<seq<real>>)
    requires Conv.ValidFilter(f) && Stands(f, before, live) && ForwardOk(fw, |before|) && WholeRows(fw)
    requires SeparateSlots(fw, |before|) && RowsGiven(fw, |before|, bases, live) && |cols| == fw.processed
    requires |outs| == |steps| == |indices| == |nexts| == |targets| == |snapshots| == Count(fw)
    requires forall r :: 0 <= r < Count(fw) ==>
      indices[r] == SlotOf(fw, |before|, r) && targets[r] == KeptSlot(fw, r) < |before|
    requires forall r :: 0 <= r < Count(fw) && bases[r].Some? ==>
      RowConvolved(f, act, fw, |before|, cols, bases[r].value, r, outs[r], steps[r], nexts[r], snapshots[r])
    requires Landed(before, mid, indices, nexts, Count(fw)) && Landed(mid, after, targets, snapshots, Count(fw))
    ensures Stands(f, after, AppliedAll(live, ConvWrites(fw, |before|, cols, bases)))
  {
    hide SlotOf, KeptSlot, KeptLength, Conv.StateOf, Conv.Span, Conv.AreOutputs, Conv.AreSteps, AppliedAll;
    var ws := ConvWrites(fw, |before|, cols, bases);
    forall r | 0 <= r < Count(fw)
      ensures ws[r].slot == indices[r] && ws[r].snap == targets[r] && (ws[r].owned <==> ws[r].slot != 0)
    {
      assert RowGiven(fw, |before|, bases[r], live, r);
    }
    forall r | 0 <= r < |ws| && ws[r].owned ensures RowStands(f, after, ws[r]) {
      assert RowGiven(fw, |before|, bases[r], live, r);
      assert RowConvolved(f, act, fw, |before|, cols, bases[r].value, r, outs[r], steps[r], nexts[r], snapshots[r]);
      forall k | 0 <= k < Count(fw) ensures targets[k] != indices[r] {
        assert targets[k] == KeptSlot(fw, k);
      }
    }
    forall slot | 0 < slot < |before| && MissedBy(ws, slot) ensures after[slot] == before[slot] {
      forall r | 0 <= r < Count(fw) ensures indices[r] != slot && targets[r] != slot {
        assert ws[r].slot != slot && ws[r].snap != slot;
      }
    }
    StandsWhenWritten(f, before, after, live, ws);
  }

  // ---- Runs --------------------------------------------------------------------------------

  /** A verified row waiting for its accepted length: the columns its request had, and those of its draft run. */
  datatype Draft = Draft(base: seq<real>, run: seq<real>)

  /** live: the columns each slot stands for. drafts: those of the last verify batch, row by row. */
  datatype Known = Known(live: map<nat, seq<real>>, drafts: seq<Option<Draft>>)

  /** Batches, and what happens to slots between them. bases are what the rows' slots stand for. */
  datatype Call =
    | Batch(fw: Forward, cols: seq<real>, bases: seq<Option<seq<real>>>)
    | Adopt(row: nat, slot: nat, accepted: nat)
    | Copy(source: nat, slot: nat)
    | Admit(slot: nat)
    | Release(slot: nat)

  /** Slots hold what they stand for, and recorded steps the state after accepting that much of the draft. */
  ghost predicate Holds(f: Conv.Filter, rows: seq<seq<real>>, intermediate: seq<seq<seq<real>>>, known: Known)
    requires Conv.ValidFilter(f)
  {
    Stands(f, rows, known.live) && |known.drafts| <= |intermediate| &&
    forall r :: 0 <= r < |known.drafts| && known.drafts[r].Some? ==>
      StepsStand(f, intermediate[r], known.drafts[r].value)
  }

  ghost predicate StepsStand(f: Conv.Filter, steps: seq<seq<real>>, d: Draft)
    requires Conv.ValidFilter(f)
  {
    |d.run| <= |steps| &&
    forall j :: 0 <= j < |d.run| ==> steps[j] == Conv.StateOf(d.base + d.run[..j + 1], Conv.Span(f))
  }

  ghost predicate CallOk(slotCount: nat, call: Call, known: Known) {
    match call
    case Batch(fw, cols, bases) =>
      ForwardOk(fw, slotCount) && WholeRows(fw) && SeparateSlots(fw, slotCount) && |cols| == fw.processed &&
      RowsGiven(fw, slotCount, bases, known.live)
    case Adopt(row, slot, accepted) =>
      row < |known.drafts| && known.drafts[row].Some? && 1 <= accepted <= |known.drafts[row].value.run| &&
      0 < slot < slotCount && slot in known.live && known.live[slot] == known.drafts[row].value.base
    case Copy(source, slot) => source in known.live && 0 < slot < slotCount
    case Admit(slot) => 0 < slot < slotCount
    case Release(_) => true
  }

  ghost function KnownAfter(slotCount: nat, call: Call, known: Known): Known
    requires CallOk(slotCount, call, known)
  {
    match call
    case Batch(fw, cols, bases) =>
      if fw.processed == 0 then known
      else if fw.mode.Verify? then known.(drafts := DraftsOf(fw, slotCount, cols, bases))
      else known.(live := AppliedAll(known.live, ConvWrites(fw, slotCount, cols, bases)))
    case Adopt(row, slot, accepted) =>
      var d := known.drafts[row].value;
      known.(live := known.live[slot := d.base + d.run[..accepted]])
    case Copy(source, slot) => known.(live := known.live[slot := known.live[source]])
    case Admit(slot) => known.(live := known.live[slot := []])
    case Release(slot) => known.(live := known.live - {slot})
  }

  ghost function DraftsOf(fw: Forward, slotCount: nat, cols: seq<real>, bases: seq<Option<seq<real>>>)
      : (ds: seq<Option<Draft>>)
    requires ForwardOk(fw, slotCount) && WholeRows(fw) && |bases| == Count(fw) && |cols| == fw.processed
    ensures |ds| == Count(fw)
  {
    seq(Count(fw), r requires 0 <= r < Count(fw) =>
      if bases[r].Some? then Some(Draft(bases[r].value, ColsOf(fw, slotCount, cols, r))) else None)
  }

  /** What a batch that writes makes of what is known: each request's slot has grown by its row's columns, its
      snapshot slot stands for the columns up to the boundary, and slots no row names stand for what they did. */
  ghost predicate BatchShown(fw: Forward, slotCount: nat, cols: seq<real>, bases: seq<Option<seq<real>>>,
                             live: map<nat, seq<real>>, after: map<nat, seq<real>>)
    requires ForwardOk(fw, slotCount) && WholeRows(fw) && |bases| == Count(fw) && |cols| == fw.processed
  {
    (forall r :: 0 <= r < Count(fw) && bases[r].Some? ==>
      RowShown(fw, slotCount, ColsOf(fw, slotCount, cols, r), bases[r].value, after, r)) &&
    forall slot :: slot in live && SlotMissed(fw, slotCount, slot) ==> slot in after && after[slot] == live[slot]
  }

  ghost predicate RowShown(fw: Forward, slotCount: nat, x: seq<real>, base: seq<real>, after: map<nat, seq<real>>,
                           r: nat)
    requires ForwardOk(fw, slotCount) && WholeRows(fw) && r < Count(fw) && |x| == fw.lengths[r]
  {
    var slot, kept := SlotOf(fw, slotCount, r), KeptSlot(fw, r);
    slot in after && after[slot] == base + x &&
    (kept != 0 ==> kept in after && after[kept] == base + x[..KeptLength(fw, r)])
  }

  ghost predicate SlotMissed(fw: Forward, slotCount: nat, slot: nat)
    requires ForwardOk(fw, slotCount) && WholeRows(fw)
  {
    forall r :: 0 <= r < Count(fw) ==> SlotOf(fw, slotCount, r) != slot && KeptSlot(fw, r) != slot
  }

  /** And what a verify batch makes of it: each request's row waits with what it had and its draft's columns. */
  ghost predicate DraftsShown(fw: Forward, slotCount: nat, cols: seq<real>, bases: seq<Option<seq<real>>>,
                              drafts: seq<Option<Draft>>)
    requires ForwardOk(fw, slotCount) && WholeRows(fw) && |bases| == Count(fw) && |cols| == fw.processed
  {
    |drafts| == Count(fw) && forall r :: 0 <= r < Count(fw) ==>
      drafts[r] == if bases[r].Some? then Some(Draft(bases[r].value, ColsOf(fw, slotCount, cols, r))) else None
  }

  lemma ConvWritesSeparate(fw: Forward, slotCount: nat, cols: seq<real>, bases: seq<Option<seq<real>>>,
                           live: map<nat, seq<real>>)
    requires ForwardOk(fw, slotCount) && WholeRows(fw) && SeparateSlots(fw, slotCount) && |cols| == fw.processed
    requires RowsGiven(fw, slotCount, bases, live)
    ensures SeparateWrites(ConvWrites(fw, slotCount, cols, bases))
    ensures forall r :: 0 <= r < Count(fw) && bases[r].Some? ==> ConvWrites(fw, slotCount, cols, bases)[r].owned
  {
    hide SlotOf, KeptSlot, KeptLength, ColsOf, ForwardOk, WholeRows;
    var ws := ConvWrites(fw, slotCount, cols, bases);
    forall r | 0 <= r < Count(fw) ensures ws[r].owned <==> ws[r].slot != 0 {
      assert RowGiven(fw, slotCount, bases[r], live, r);
    }
  }

  lemma BatchKnown(fw: Forward, slotCount: nat, cols: seq<real>, bases: seq<Option<seq<real>>>, known: Known)
    requires CallOk(slotCount, Batch(fw, cols, bases), known) && fw.processed > 0 && 0 !in known.live
    ensures var after := KnownAfter(slotCount, Batch(fw, cols, bases), known);
      if fw.mode.Verify? then after.live == known.live && DraftsShown(fw, slotCount, cols, bases, after.drafts)
      else after.drafts == known.drafts && BatchShown(fw, slotCount, cols, bases, known.live, after.live)
  {
    hide SlotOf, KeptSlot, KeptLength, AppliedAll, ColsOf, ForwardOk, WholeRows, SeparateWrites;
    if !fw.mode.Verify? {
      ConvWritesSeparate(fw, slotCount, cols, bases, known.live);
      var ws, live := ConvWrites(fw, slotCount, cols, bases), known.live;
      AppliedAllIs(live, ws);
      var after := AppliedAll(live, ws);
      forall r | 0 <= r < Count(fw) && bases[r].Some?
        ensures RowShown(fw, slotCount, ColsOf(fw, slotCount, cols, r), bases[r].value, after, r)
      {
        assert ws[r].owned && WriteShows(after, ws[r]);
      }
      forall slot | slot in live && SlotMissed(fw, slotCount, slot) ensures slot in after && after[slot] == live[slot] {
        assert MissedBy(ws, slot) && Accounted(live, ws, after, slot);
      }
    }
  }

  ghost predicate CallsOk(slotCount: nat, calls: seq<Call>, known: Known)
    decreases |calls|
  {
    calls == [] ||
    (CallOk(slotCount, calls[0], known) && CallsOk(slotCount, calls[1..], KnownAfter(slotCount, calls[0], known)))
  }

  /** Outputs of a batch are those of each request's whole column history. */
  ghost predicate Answers(f: Conv.Filter, act: real -> real, slotCount: nat, call: Call, outs: seq<real>)
    requires Conv.ValidFilter(f)
  {
    call.Batch? && call.fw.processed > 0 ==>
      ForwardOk(call.fw, slotCount) && WholeRows(call.fw) && |outs| == |call.cols| == call.fw.processed &&
      |call.bases| == Count(call.fw) && forall r :: 0 <= r < Count(call.fw) && call.bases[r].Some? ==>
        Conv.AreOutputs(f, act, ColsOf(call.fw, slotCount, outs, r), call.bases[r].value,
                        ColsOf(call.fw, slotCount, call.cols, r))
  }

  lemma DraftsStand(f: Conv.Filter, fw: Forward, slotCount: nat, cols: seq<real>, bases: seq<Option<seq<real>>>,
                    rows: seq<seq<real>>, intermediate: seq<seq<seq<real>>>, live: map<nat, seq<real>>)
    requires Conv.ValidFilter(f) && ForwardOk(fw, slotCount) && WholeRows(fw) && |cols| == fw.processed
    requires Recorded(f, fw, slotCount, cols, bases, intermediate) && Stands(f, rows, live)
    ensures Holds(f, rows, intermediate, Known(live, DraftsOf(fw, slotCount, cols, bases)))
  {
    hide Conv.StateOf, Conv.Span, Stands, ColsOf, Width;
    var drafts := DraftsOf(fw, slotCount, cols, bases);
    forall r | 0 <= r < |drafts| && drafts[r].Some? ensures StepsStand(f, intermediate[r], drafts[r].value) {
      LengthFits(fw, slotCount, r);
      assert Conv.AreSteps(f, intermediate[r], bases[r].value, ColsOf(fw, slotCount, cols, r), Width(fw));
    }
  }

  /** One call on the pool. */
  method Serve(pool: StatePool, call: Call, ghost known: Known) returns (outs: seq<real>)
    requires pool.Valid() && Holds(pool.f, pool.rows[..], pool.intermediate, known)
    requires CallOk(pool.rows.Length, call, known)
    modifies pool.rows, pool`intermediate
    ensures pool.Valid() && Holds(pool.f, pool.rows[..], pool.intermediate, KnownAfter(pool.rows.Length, call, known))
    ensures Answers(pool.f, pool.act, pool.rows.Length, call, outs)
  {
    hide ForwardOk, WholeRows, SeparateSlots, Conv.Span, Conv.StateOf, Conv.AreOutputs, AppliedAll, ConvWrites,
      Recorded, ColsOf, RowGiven, DraftsOf;
    outs := [];
    match call {
      case Batch(fw, cols, bases) =>
        outs := pool.ShortConv(fw, cols, bases, known.live);
        if fw.processed > 0 && fw.mode.Verify? {
          DraftsStand(pool.f, fw, pool.rows.Length, cols, bases, pool.rows[..], pool.intermediate, known.live);
        }
      case Adopt(row, slot, accepted) =>
        assert StepsStand(pool.f, pool.intermediate[row], known.drafts[row].value);
        pool.rows[slot] := pool.intermediate[row][accepted - 1];
      case Copy(source, slot) =>
        pool.rows[slot] := pool.rows[source];
      case Admit(slot) =>
        pool.rows[slot] := Conv.StateOf([], Conv.Span(pool.f));
      case Release(_) =>
    }
  }

  /** Over every run from a fresh pool, whatever its rows hold, each batch's outputs are those of its requests'
      own column histories. */
  method ServeAll(pool: StatePool, calls: seq<Call>) returns (outs: seq<seq<real>>)
    requires pool.Valid() && CallsOk(pool.rows.Length, calls, Known(map[], []))
    modifies pool.rows, pool`intermediate
    ensures pool.Valid() && |outs| == |calls|
    ensures forall i :: 0 <= i < |calls| ==> Answers(pool.f, pool.act, pool.rows.Length, calls[i], outs[i])
  {
    hide Stands, StepsStand, Answers, KnownAfter, CallOk;
    ghost var known := Known(map[], []);
    NothingStands(pool.f, pool.rows[..]);
    outs := [];
    for i := 0 to |calls|
      invariant pool.Valid() && Holds(pool.f, pool.rows[..], pool.intermediate, known) && |outs| == i
      invariant CallsOk(pool.rows.Length, calls[i..], known)
      invariant forall k :: 0 <= k < i ==> Answers(pool.f, pool.act, pool.rows.Length, calls[k], outs[k])
    {
      assert calls[i..][0] == calls[i] && calls[i..][1..] == calls[i + 1..];
      var out := Serve(pool, calls[i], known);
      outs := outs + [out];
      known := KnownAfter(pool.rows.Length, calls[i], known);
    }
  }

  lemma NothingStands(f: Conv.Filter, rows: seq<seq<real>>)
    requires Conv.ValidFilter(f)
    ensures Stands(f, rows, map[])
  {
  }
}

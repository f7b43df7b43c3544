/** Whole runs over the shared context pool: any interleaving of extend, decode and verify batches with
    padding rows, adopted verify steps, snapshots, copies between slots, and slots freed and reused. */
module PleRuns {
  import opened Wrappers
  import opened NgramWindow
  import opened PleHistory
  import opened SlotWrites

  /** A verified row waiting for its accepted length: what the request had, and its draft run. */
  datatype Pending = Pending(base: seq<int>, run: seq<int>)

  /** rows: the context pool, slot 0 reserved. live: every token of the history a slot stands for. */
  datatype System = System(rows: seq<seq<int>>, steps: seq<seq<seq<int>>>, pending: seq<Option<Pending>>,
                           live: map<nat, seq<int>>)

  /** bases: for each row that is not padding, the tokens its request had before the batch. */
  datatype Event =
    | Serve(f: Forward, b: PleBatch, bases: seq<Option<seq<int>>>, ids: seq<seq<int>>)
    | Adopt(row: nat, slot: nat, accepted: nat)
    | Copy(source: nat, slot: nat)
    | Admit(slot: nat)
    | Release(slot: nat)

  /** Each live slot holds the last n - 1 tokens of its eos-padded history, and each pending verify step
      the history after accepting that much of the draft. */
  ghost predicate Inv(t: Table, s: System) {
    ValidTable(t) && RowsOk(t, s.rows) && |s.steps| == |s.pending| &&
    (forall slot :: slot in s.live ==> 0 < slot < |s.rows| && s.rows[slot] == Context(t, s.live[slot])) &&
    forall r :: 0 <= r < |s.pending| && s.pending[r].Some? ==> StepsMatch(t, s.pending[r].value, s.steps[r])
  }

  ghost predicate StepsMatch(t: Table, p: Pending, steps: seq<seq<int>>)
    requires t.n >= 1
  {
    |p.run| <= |steps| && forall j :: 0 <= j < |p.run| ==> steps[j] == Context(t, p.base + p.run[..j + 1])
  }

  /** The row of a request names the slot that stands for exactly the tokens it had. */
  ghost predicate Entitled(f: Forward, s: System, r: nat, base: seq<int>)
    requires ForwardOk(f, |s.rows|) && WholeRows(f) && r < Count(f)
  {
    SlotOf(f, |s.rows|, r) in s.live && s.live[SlotOf(f, |s.rows|, r)] == base
  }

  ghost function RunOf(f: Forward, slotCount: nat, r: nat): (run: seq<int>)
    requires ForwardOk(f, slotCount) && WholeRows(f) && r < Count(f)
    ensures |run| == f.lengths[r]
  {
    LengthFits(f, slotCount, r);
    Run(f, r)
  }

  ghost predicate ServeStep(t: Table, s: System, f: Forward, b: PleBatch, bases: seq<Option<seq<int>>>,
                            ids: seq<seq<int>>, s': System)
  {
    ValidTable(t) && RowsOk(t, s.rows) && ForwardOk(f, |s.rows|) && WholeRows(f) && f.processed > 0 &&
    |bases| == Count(f) && |ids| == f.processed &&
    (forall r :: 0 <= r < Count(f) && bases[r].Some? ==> Entitled(f, s, r, bases[r].value)) &&
    (forall r :: 0 <= r < Count(f) && SlotOf(f, |s.rows|, r) != 0 ==> bases[r].Some?) &&
    SeparateTargets(f, b, |s.rows|) &&
    // what the forward pass guarantees
    Prepared(t, f, s.rows, b) && CommittedRows(t, f, b, s.rows, s'.rows) &&
    (forall r, o :: 0 <= r < Count(f) && 0 <= o < f.lengths[r] ==> IdServed(t, f, s.rows, b, ids, r, o)) &&
    if f.mode.Verify? then
      s'.live == s.live && StepsRecorded(t, f, b, s'.steps) && |s'.pending| == Count(f) &&
      forall r :: 0 <= r < Count(f) ==> PendingAfter(f, |s.rows|, bases, r, s'.pending[r])
    else s'.steps == s.steps && s'.pending == s.pending && LiveAfter(f, |s.rows|, bases, s.live, s'.live)
  }

  ghost predicate PendingAfter(f: Forward, slotCount: nat, bases: seq<Option<seq<int>>>, r: nat, p: Option<Pending>)
    requires ForwardOk(f, slotCount) && WholeRows(f) && |bases| == Count(f) && r < Count(f)
  {
    p == if bases[r].Some? then Some(Pending(bases[r].value, RunOf(f, slotCount, r))) else None
  }

  /** Committed rows grow by their run, snapshots stand for the history at the boundary, a padding row's
      snapshot stands for nothing, and other slots stand for what they did. */
  ghost predicate LiveAfter(f: Forward, slotCount: nat, bases: seq<Option<seq<int>>>, live: map<nat, seq<int>>,
                            live': map<nat, seq<int>>)
    requires ForwardOk(f, slotCount) && WholeRows(f) && |bases| == Count(f)
  {
    (forall r :: 0 <= r < Count(f) && bases[r].Some? ==> RowLive(f, slotCount, bases[r].value, r, live')) &&
    (forall slot :: slot in live' ==> LiveSlot(f, slotCount, bases, live, live', slot)) &&
    forall slot :: slot in live && Elsewhere(f, slotCount, slot) ==> slot in live'
  }

  ghost predicate RowLive(f: Forward, slotCount: nat, base: seq<int>, r: nat, live: map<nat, seq<int>>)
    requires ForwardOk(f, slotCount) && WholeRows(f) && r < Count(f)
  {
    var slot, kept, run := SlotOf(f, slotCount, r), KeptSlot(f, r), RunOf(f, slotCount, r);
    slot in live && live[slot] == base + run &&
    (kept != 0 ==> kept in live && live[kept] == base + run[..KeptLength(f, r)])
  }

  /** Where a live slot comes from: a row, a row's snapshot, or untouched from before. */
  ghost predicate LiveSlot(f: Forward, slotCount: nat, bases: seq<Option<seq<int>>>, live: map<nat, seq<int>>,
                           live': map<nat, seq<int>>, slot: nat)
    requires ForwardOk(f, slotCount) && WholeRows(f) && |bases| == Count(f) && slot in live'
  {
    slot != 0 &&
    ((exists r :: 0 <= r < Count(f) && bases[r].Some? && SlotOf(f, slotCount, r) == slot) ||
     (exists r :: 0 <= r < Count(f) && bases[r].Some? && KeptSlot(f, r) == slot) ||
     (Elsewhere(f, slotCount, slot) && slot in live && live[slot] == live'[slot]))
  }

  ghost predicate Elsewhere(f: Forward, slotCount: nat, slot: nat)
    requires ForwardOk(f, slotCount) && WholeRows(f)
  {
    forall r :: 0 <= r < Count(f) ==> SlotOf(f, slotCount, r) != slot && KeptSlot(f, r) != slot
  }

  ghost predicate Step(t: Table, s: System, e: Event, s': System) {
    match e
    case Serve(f, b, bases, ids) => ServeStep(t, s, f, b, bases, ids, s')
    case Adopt(row, slot, accepted) =>
      row < |s.pending| == |s.steps| && s.pending[row].Some? && 1 <= accepted <= |s.pending[row].value.run| &&
      accepted <= |s.steps[row]| && slot < |s.rows| && slot in s.live && s.live[slot] == s.pending[row].value.base &&
      s' == s.(rows := s.rows[slot := s.steps[row][accepted - 1]],
               live := s.live[slot := s.live[slot] + s.pending[row].value.run[..accepted]])
    case Copy(source, slot) =>
      source in s.live && source < |s.rows| && 0 < slot < |s.rows| &&
      s' == s.(rows := s.rows[slot := s.rows[source]], live := s.live[slot := s.live[source]])
    case Admit(slot) =>
      t.n >= 1 && 0 < slot < |s.rows| &&
      s' == s.(rows := s.rows[slot := Eos(t.eos, t.n - 1)], live := s.live[slot := []])
    case Release(slot) => s' == s.(live := s.live - {slot})
  }

  // ---- What every step keeps ---------------------------------------------------------------

  /** Columns of a row's context are the history after that many tokens of its run. */
  lemma ColumnsAreContext(t: Table, s: System, f: Forward, b: PleBatch, r: nat, base: seq<int>, offset: nat)
    requires Inv(t, s) && ForwardOk(f, |s.rows|) && Prepared(t, f, s.rows, b) && r < Count(f)
    requires Entitled(f, s, r, base) && offset <= f.lengths[r]
    ensures b.stateIndices[r] == SlotOf(f, |s.rows|, r) && offset + t.n - 1 <= |b.context[r]|
    ensures ContextColumns(t, b.context[r], offset) == Context(t, base + RunOf(f, |s.rows|, r)[..offset])
  {
    hide Base, Span, StateIndex, Width, ReqOf, FoundAt, Context;
    RowInPool(t, f, s.rows, b, r);
    assert RowPrepared(t, f, s.rows, b, r);
    var run := RunOf(f, |s.rows|, r);
    ContextAppend(t, base, run[..offset]);
    ColumnsOfPadded(t, Context(t, base), run, Eos(t.eos, Width(f) - f.lengths[r]), offset);
  }

  lemma ColumnsOfPadded(t: Table, k: seq<int>, run: seq<int>, pad: seq<int>, offset: nat)
    requires t.n >= 1 && |k| == t.n - 1 && offset <= |run|
    ensures ContextColumns(t, k + (run + pad), offset) == (k + run[..offset])[offset..]
  {
  }

  lemma ServeKeepsLive(t: Table, s: System, f: Forward, b: PleBatch, bases: seq<Option<seq<int>>>,
                       ids: seq<seq<int>>, s': System, slot: nat)
    requires Inv(t, s) && ServeStep(t, s, f, b, bases, ids, s') && !f.mode.Verify? && slot in s'.live
    ensures 0 < slot < |s'.rows| && s'.rows[slot] == Context(t, s'.live[slot])
  {
    hide Context, KeptLength, ContextColumns, IdServed, RunOf, SlotOf, FoundAt, RowPrepared, WholeRows, KeptSlot,
      Elsewhere, Prepared, StepsMatch, SeparateTargets, Untouched, RowLive, RowCommitted, Entitled;
    var n := |s.rows|;
    assert LiveSlot(f, n, bases, s.live, s'.live, slot);
    if r :| 0 <= r < Count(f) && bases[r].Some? && (SlotOf(f, n, r) == slot || KeptSlot(f, r) == slot) {
      RowKeeps(t, s, f, b, bases[r].value, s', r);
    } else {
      ElsewhereUntouched(t, s, f, b, slot);
    }
  }

  lemma ElsewhereUntouched(t: Table, s: System, f: Forward, b: PleBatch, slot: nat)
    requires t.n >= 1 && ForwardOk(f, |s.rows|) && Prepared(t, f, s.rows, b) && Elsewhere(f, |s.rows|, slot)
    ensures Untouched(f, b, |s.rows|, slot)
  {
    hide SlotOf, KeptSlot, RowPrepared, FoundAt;
    forall r | 0 <= r < Count(f) ensures b.stateIndices[r] == SlotOf(f, |s.rows|, r) {
      SlotIsPrepared(t, f, s.rows, b, r);
    }
  }

  lemma SlotIsPrepared(t: Table, f: Forward, rows: seq<seq<int>>, b: PleBatch, r: nat)
    requires t.n >= 1 && ForwardOk(f, |rows|) && Prepared(t, f, rows, b) && r < Count(f)
    ensures b.stateIndices[r] == SlotOf(f, |rows|, r)
  {
    assert RowPrepared(t, f, rows, b, r);
  }

  /** The slots a row writes stand for what its tokens say. */
  lemma RowKeeps(t: Table, s: System, f: Forward, b: PleBatch, base: seq<int>, s': System, r: nat)
    requires Inv(t, s) && ForwardOk(f, |s.rows|) && Prepared(t, f, s.rows, b) && r < Count(f)
    requires Entitled(f, s, r, base) && RowLive(f, |s.rows|, base, r, s'.live)
    requires |s'.rows| == |s.rows| && RowCommitted(t, f, b, s'.rows, r)
    ensures var slot := SlotOf(f, |s.rows|, r); 0 < slot < |s'.rows| && s'.rows[slot] == Context(t, s'.live[slot])
    ensures var slot := KeptSlot(f, r);
      slot != 0 ==> slot < |s'.rows| && s'.rows[slot] == Context(t, s'.live[slot])
  {
    hide Context, ContextColumns, Base, Span, StateIndex, Width, FoundAt, RowPrepared;
    var run := RunOf(f, |s.rows|, r);
    ColumnsAreContext(t, s, f, b, r, base, f.lengths[r]);
    assert run[..f.lengths[r]] == run;
    if KeptSlot(f, r) != 0 {
      ColumnsAreContext(t, s, f, b, r, base, KeptLength(f, r));
    }
  }

  /** Each verify step of a request's row is the history after accepting that much of the draft. */
  lemma VerifyKeepsPending(t: Table, s: System, f: Forward, b: PleBatch, bases: seq<Option<seq<int>>>,
                           ids: seq<seq<int>>, s': System, r: nat)
    requires Inv(t, s) && ServeStep(t, s, f, b, bases, ids, s') && f.mode.Verify?
    requires r < |s'.pending| && s'.pending[r].Some?
    ensures |s'.steps| == |s'.pending| && StepsMatch(t, s'.pending[r].value, s'.steps[r])
  {
    hide Context, ContextColumns, Base, Span, StateIndex, Width, FoundAt, IdServed, SlotOf, CommittedRows,
      SeparateTargets;
    var base, run := bases[r].value, RunOf(f, |s.rows|, r);
    assert PendingAfter(f, |s.rows|, bases, r, s'.pending[r]) && StepsOf(t, f, b, r, s'.steps[r]);
    RowInPool(t, f, s.rows, b, r);
    forall j | 0 <= j < |run| ensures s'.steps[r][j] == Context(t, base + run[..j + 1]) {
      ColumnsAreContext(t, s, f, b, r, base, j + 1);
    }
  }

  lemma ServeKeepsInv(t: Table, s: System, f: Forward, b: PleBatch, bases: seq<Option<seq<int>>>,
                      ids: seq<seq<int>>, s': System)
    requires Inv(t, s) && ServeStep(t, s, f, b, bases, ids, s')
    ensures Inv(t, s')
  {
    hide Context, StepsMatch, StepsRecorded, IdServed, LiveAfter, Prepared, SeparateTargets, Entitled, SlotOf,
      PendingAfter, WholeRows;
    if f.mode.Verify? {
      forall r | 0 <= r < |s'.pending| && s'.pending[r].Some?
        ensures |s'.steps| == |s'.pending| && StepsMatch(t, s'.pending[r].value, s'.steps[r])
      {
        VerifyKeepsPending(t, s, f, b, bases, ids, s', r);
      }
      VerifyShape(t, f, b, s'.steps);
    } else {
      forall slot | slot in s'.live ensures 0 < slot < |s'.rows| && s'.rows[slot] == Context(t, s'.live[slot]) {
        ServeKeepsLive(t, s, f, b, bases, ids, s', slot);
      }
    }
  }

  lemma VerifyShape(t: Table, f: Forward, b: PleBatch, steps: seq<seq<seq<int>>>)
    requires t.n >= 1 && Count(f) == |f.lengths| && StepsRecorded(t, f, b, steps)
    ensures |steps| == Count(f)
  {
  }

  lemma StepKeepsInv(t: Table, s: System, e: Event, s': System)
    requires Inv(t, s) && Step(t, s, e, s')
    ensures Inv(t, s')
  {
    hide ServeStep, Context;
    match e
    case Serve(f, b, bases, ids) => ServeKeepsInv(t, s, f, b, bases, ids, s');
    case Adopt(row, slot, accepted) =>
      assert StepsMatch(t, s.pending[row].value, s.steps[row]);
    case Copy(_, _) =>
    case Admit(_) => EmptyContext(t);
    case Release(_) =>
  }

  // ---- What every step emits ---------------------------------------------------------------

  /** Ids of every token of a request's row are those of its position in the request's whole sequence. */
  ghost predicate EmitsOwnIds(t: Table, slotCount: nat, e: Event) {
    e.Serve? ==>
      ValidTable(t) && ForwardOk(e.f, slotCount) && WholeRows(e.f) && |e.bases| == Count(e.f) &&
      |e.ids| == e.f.processed &&
      forall r, o :: 0 <= r < Count(e.f) && e.bases[r].Some? && 0 <= o < e.f.lengths[r] ==>
        EmittedAt(t, slotCount, e.f, e.bases[r].value, e.ids, r, o)
  }

  ghost predicate EmittedAt(t: Table, slotCount: nat, f: Forward, base: seq<int>, ids: seq<seq<int>>, r: nat, o: nat)
    requires ValidTable(t) && ForwardOk(f, slotCount) && WholeRows(f) && r < Count(f) && o < f.lengths[r]
    requires |ids| == f.processed
  {
    LengthFits(f, slotCount, r);
    PlaceIn(f, slotCount, r, o);
    ids[Base(f, r) + o] == SequenceIds(t, base + RunOf(f, slotCount, r), |base| + o)
  }

  lemma StepEmitsOwnIds(t: Table, s: System, e: Event, s': System)
    requires Inv(t, s) && Step(t, s, e, s')
    ensures EmitsOwnIds(t, |s.rows|, e)
  {
    if e.Serve? {
      forall r, o | 0 <= r < Count(e.f) && e.bases[r].Some? && 0 <= o < e.f.lengths[r]
        ensures EmittedAt(t, |s.rows|, e.f, e.bases[r].value, e.ids, r, o)
      {
        TokenEmitted(t, s, e.f, e.b, e.bases[r].value, e.ids, r, o);
      }
    }
  }

  lemma TokenEmitted(t: Table, s: System, f: Forward, b: PleBatch, base: seq<int>, ids: seq<seq<int>>, r: nat, o: nat)
    requires Inv(t, s) && ForwardOk(f, |s.rows|) && Prepared(t, f, s.rows, b) && r < Count(f) && o < f.lengths[r]
    requires |ids| == f.processed && Entitled(f, s, r, base) && IdServed(t, f, s.rows, b, ids, r, o)
    ensures EmittedAt(t, |s.rows|, f, base, ids, r, o)
  {
    hide Base, Span, StateIndex, Width, FoundAt, ReqOf, Context, IdsAt, SequenceIds, RowPrepared;
    SlotIsPrepared(t, f, s.rows, b, r);
    LengthFits(f, |s.rows|, r);
    PieceIds(t, base, RunOf(f, |s.rows|, r), o);
  }

  // ---- Runs --------------------------------------------------------------------------------

  ghost predicate IsRun(t: Table, states: seq<System>, events: seq<Event>) {
    |states| == |events| + 1 && forall i :: 0 <= i < |events| ==> Step(t, states[i], events[i], states[i + 1])
  }

  lemma {:induction false} RunKeeps(t: Table, states: seq<System>, events: seq<Event>, i: nat)
    requires IsRun(t, states, events) && Inv(t, states[0]) && i <= |events|
    ensures Inv(t, states[i])
    ensures i < |events| ==> EmitsOwnIds(t, |states[i].rows|, events[i])
  {
    hide Inv, Step, EmitsOwnIds;
    if i > 0 {
      RunKeeps(t, states, events, i - 1);
      StepKeepsInv(t, states[i - 1], events[i - 1], states[i]);
    }
    if i < |events| {
      StepEmitsOwnIds(t, states[i], events[i], states[i + 1]);
    }
  }

  /** A fresh pool stands for nobody's tokens, whatever its rows hold. */
  lemma FreshPoolIsSafe(t: Table, rows: seq<seq<int>>)
    requires ValidTable(t) && RowsOk(t, rows)
    ensures Inv(t, System(rows, [], [], map[]))
  {
  }

  /** Over every run from a fresh pool, live slots hold the true context and every emitted id is that of its
      position in the request's own sequence, whatever a reused slot or a padding row held. */
  lemma RunsAreSafe(t: Table, rows: seq<seq<int>>, states: seq<System>, events: seq<Event>, i: nat)
    requires ValidTable(t) && RowsOk(t, rows)
    requires IsRun(t, states, events) && states[0] == System(rows, [], [], map[]) && i <= |events|
    ensures Inv(t, states[i])
    ensures i < |events| ==> EmitsOwnIds(t, |states[i].rows|, events[i])
  {
    hide Inv, Step, EmitsOwnIds, ValidTable, RowsOk;
    FreshPoolIsSafe(t, rows);
    RunKeeps(t, states, events, i);
  }

  // ---- The pool takes these steps ----------------------------------------------------------

  /** No real slot is written twice: rows' slots and snapshot slots are all different. */
  ghost predicate SeparateSlots(f: Forward, slotCount: nat)
    requires ForwardOk(f, slotCount) && WholeRows(f)
  {
    (forall r, r' :: 0 <= r < r' < Count(f) && SlotOf(f, slotCount, r) != 0 ==>
      SlotOf(f, slotCount, r) != SlotOf(f, slotCount, r')) &&
    (forall r, r' :: 0 <= r < Count(f) && 0 <= r' < Count(f) && KeptSlot(f, r) != 0 ==>
      KeptSlot(f, r) != SlotOf(f, slotCount, r')) &&
    forall r, r' :: 0 <= r < r' < Count(f) && KeptSlot(f, r) != 0 ==> KeptSlot(f, r) != KeptSlot(f, r')
  }

  lemma SeparateSlotsAreTargets(t: Table, f: Forward, rows: seq<seq<int>>, b: PleBatch)
    requires t.n >= 1 && ForwardOk(f, |rows|) && Prepared(t, f, rows, b) && SeparateSlots(f, |rows|)
    ensures SeparateTargets(f, b, |rows|)
  {
    hide SlotOf, KeptSlot, RowPrepared, FoundAt, ForwardOk, WholeRows;
    forall r | 0 <= r < Count(f) ensures b.stateIndices[r] == SlotOf(f, |rows|, r) {
      SlotIsPrepared(t, f, rows, b, r);
    }
  }

  ghost function WriteOf(f: Forward, slotCount: nat, base: Option<seq<int>>, r: nat): Write<seq<int>>
    requires ForwardOk(f, slotCount) && WholeRows(f) && r < Count(f)
  {
    var run, had := RunOf(f, slotCount, r), if base.Some? then base.value else [];
    Write(base.Some?, SlotOf(f, slotCount, r), had + run, KeptSlot(f, r),
          if KeptSlot(f, r) == 0 then [] else had + run[..KeptLength(f, r)])
  }

  ghost function WritesOf(f: Forward, slotCount: nat, bases: seq<Option<seq<int>>>): (ws: seq<Write<seq<int>>>)
    requires ForwardOk(f, slotCount) && WholeRows(f) && |bases| == Count(f)
    ensures |ws| == Count(f)
  {
    seq(Count(f), r requires 0 <= r < Count(f) => WriteOf(f, slotCount, bases[r], r))
  }

  /** Rows with a base have a slot; rows without one have none. */
  ghost predicate BasesFit(f: Forward, slotCount: nat, bases: seq<Option<seq<int>>>)
    requires ForwardOk(f, slotCount) && WholeRows(f)
  {
    |bases| == Count(f) && forall r :: 0 <= r < Count(f) ==> (SlotOf(f, slotCount, r) != 0 <==> bases[r].Some?)
  }

  lemma WritesLive(f: Forward, slotCount: nat, bases: seq<Option<seq<int>>>, live: map<nat, seq<int>>)
    requires ForwardOk(f, slotCount) && WholeRows(f) && BasesFit(f, slotCount, bases)
    requires SeparateSlots(f, slotCount) && 0 !in live
    ensures LiveAfter(f, slotCount, bases, live, AppliedAll(live, WritesOf(f, slotCount, bases)))
  {
    hide SlotOf, KeptSlot, RunOf, WholeRows, KeptLength, AppliedAll, LiveSlot, ForwardOk, Accounted;
    var ws := WritesOf(f, slotCount, bases);
    assert SeparateWrites(ws);
    AppliedAllIs(live, ws);
    var after := AppliedAll(live, ws);
    forall r | 0 <= r < Count(f) && bases[r].Some? ensures RowLive(f, slotCount, bases[r].value, r, after) {
      assert WriteShows(after, ws[r]);
    }
    forall slot | slot in live && Elsewhere(f, slotCount, slot) ensures slot in after {
      assert MissedBy(ws, slot);
    }
    forall slot | slot in after ensures LiveSlot(f, slotCount, bases, live, after, slot) {
      AccountedIsLive(f, slotCount, bases, live, after, slot);
    }
  }

  lemma AccountedIsLive(f: Forward, slotCount: nat, bases: seq<Option<seq<int>>>, live: map<nat, seq<int>>,
                        after: map<nat, seq<int>>, slot: nat)
    requires ForwardOk(f, slotCount) && WholeRows(f) && BasesFit(f, slotCount, bases) && slot in after
    requires Accounted(live, WritesOf(f, slotCount, bases), after, slot)
    ensures LiveSlot(f, slotCount, bases, live, after, slot)
  {
    hide SlotOf, KeptSlot, RunOf, WholeRows, KeptLength;
    var ws := WritesOf(f, slotCount, bases);
    if !WrittenBy(ws, slot) {
      forall r | 0 <= r < Count(f) ensures SlotOf(f, slotCount, r) != slot && KeptSlot(f, r) != slot {
        assert ws[r].slot != slot && ws[r].snap != slot;
      }
    }
  }

  /** Prepare, hash and commit of one batch are a serve step: the invariant survives and every id is that of
      its position in its request's own sequence. Malformed verify batches are refused. */
  method ServeBatch(pool: ContextPool, f: Forward, ghost s: System, ghost bases: seq<Option<seq<int>>>)
    returns (result: Result<seq<seq<int>>>, ghost b: PleBatch, ghost s': System)
    requires pool.Valid() && ForwardOk(f, pool.rows.Length) && f.processed > 0
    requires s.rows == pool.rows[..] && s.steps == pool.intermediate && Inv(pool.t, s)
    requires WholeRows(f) ==> SeparateSlots(f, pool.rows.Length) && BasesFit(f, pool.rows.Length, bases) &&
                              forall r :: 0 <= r < Count(f) && bases[r].Some? ==> Entitled(f, s, r, bases[r].value)
    modifies pool.rows, pool`intermediate
    ensures pool.Valid() && (result.Ok? <==> WholeRows(f))
    ensures result.Ok? ==> s'.rows == pool.rows[..] && s'.steps == pool.intermediate
    ensures result.Ok? ==> Step(pool.t, s, Serve(f, b, bases, result.value), s') && Inv(pool.t, s')
    ensures result.Ok? ==> EmitsOwnIds(pool.t, |s.rows|, Serve(f, b, bases, result.value))
  {
    hide WholeRows, Prepared, SeparateTargets, SeparateSlots, CommittedRows, StepsRecorded, IdServed, EmitsOwnIds,
      SlotOf, AppliedAll, Entitled, Inv, ServeStep, RowsOk, ForwardOk, BasesFit;
    ghost var t, n := pool.t, pool.rows.Length;
    b, s' := PleBatch([], 0, [], [], [], []), s;
    var prepared := pool.Prepare(f);
    if prepared.Err? {
      return Err, b, s';
    }
    b := prepared.value;
    SeparateSlotsAreTargets(t, f, s.rows, b);
    var ids := pool.NgramIds(f, prepared.value);
    pool.Commit(f, prepared.value);
    s' := SystemAfter(f, s, bases, pool.rows[..], pool.intermediate);
    StepTaken(t, s, f, b, bases, ids, pool.rows[..], pool.intermediate);
    result := Ok(ids);
    StepKeepsInv(t, s, Serve(f, b, bases, ids), s');
    StepEmitsOwnIds(t, s, Serve(f, b, bases, ids), s');
  }

  ghost function SystemAfter(f: Forward, s: System, bases: seq<Option<seq<int>>>, rows: seq<seq<int>>,
                             steps: seq<seq<seq<int>>>): System
    requires ForwardOk(f, |s.rows|) && WholeRows(f) && BasesFit(f, |s.rows|, bases)
  {
    if f.mode.Verify? then
      System(rows, steps, seq(Count(f), r requires 0 <= r < Count(f) =>
        if bases[r].Some? then Some(Pending(bases[r].value, RunOf(f, |s.rows|, r))) else None), s.live)
    else System(rows, steps, s.pending, AppliedAll(s.live, WritesOf(f, |s.rows|, bases)))
  }

  lemma StepTaken(t: Table, s: System, f: Forward, b: PleBatch, bases: seq<Option<seq<int>>>, ids: seq<seq<int>>,
                  rows: seq<seq<int>>, steps: seq<seq<seq<int>>>)
    requires Inv(t, s) && ForwardOk(f, |s.rows|) && WholeRows(f) && f.processed > 0 && |ids| == f.processed
    requires BasesFit(f, |s.rows|, bases) && SeparateSlots(f, |s.rows|) && SeparateTargets(f, b, |s.rows|)
    requires forall r :: 0 <= r < Count(f) && bases[r].Some? ==> Entitled(f, s, r, bases[r].value)
    requires Prepared(t, f, s.rows, b) && CommittedRows(t, f, b, s.rows, rows)
    requires forall r, o :: 0 <= r < Count(f) && 0 <= o < f.lengths[r] ==> IdServed(t, f, s.rows, b, ids, r, o)
    requires if f.mode.Verify? then StepsRecorded(t, f, b, steps) else steps == s.steps
    ensures Step(t, s, Serve(f, b, bases, ids), SystemAfter(f, s, bases, rows, steps))
  {
    hide Prepared, SeparateTargets, SeparateSlots, CommittedRows, StepsRecorded, IdServed, SlotOf, AppliedAll, Entitled,
      RunOf, RowsOk, StepsMatch, RowLive, LiveAfter, WritesOf;
    var n, s' := |s.rows|, SystemAfter(f, s, bases, rows, steps);
    if f.mode.Verify? {
      forall r | 0 <= r < Count(f) ensures PendingAfter(f, n, bases, r, s'.pending[r]) {
      }
    } else {
      WritesLive(f, n, bases, s.live);
    }
  }
}

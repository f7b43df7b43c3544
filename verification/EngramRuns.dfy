/** Whole runs of the serving hasher: any interleaving of served batches, accepted verify blocks, and
    slots given up and reused. */
module EngramRuns {
  import opened Wrappers
  import opened EngramHash
  import opened EngramHistory

  /** rows: the history tensor. live: every token committed so far by the request holding a slot. */
  datatype System = System(rows: seq<seq<int>>, live: map<nat, seq<int>>)

  /** Bases name, for each request of a batch that is not padding, the tokens it had before the batch. */
  datatype Event =
    | Serve(batch: Batch, bases: seq<Option<seq<int>>>, ids: seq<seq<seq<int>>>)
    | Accept(drafts: seq<seq<int>>, slots: seq<nat>, counts: seq<nat>)
    | Release(slot: nat)

  /** Each live slot's row agrees with the last tokens its request committed. */
  ghost predicate Inv(c: Config, padRow: nat, s: System) {
    ValidConfig(c) && RowsOk(c, s.rows, padRow + 1) &&
    forall slot :: slot in s.live ==> slot < padRow && Agrees(c, s.rows[slot], s.live[slot])
  }

  /** What the scheduler owes a request: its true positions, and either its predecessors, or a slot
      that holds its own tokens, or a sequence that starts with this run. */
  ghost predicate Entitled(c: Config, s: System, b: Batch, padRow: nat, r: nat, base: seq<int>)
    requires BatchOk(c, b, padRow) && r < |b.slots|
  {
    RunFits(c, b, padRow, r);
    (forall o :: 0 <= o < Len(b, r) ==> PositionIs(c, b, padRow, base, r, o)) &&
    if b.mode.Extend? && b.mode.supplied.Some? then Agrees(c, b.mode.supplied.value[r], base)
    else base == [] || (b.slots[r] in s.live && s.live[b.slots[r]] == base)
  }

  ghost predicate PositionIs(c: Config, b: Batch, padRow: nat, base: seq<int>, r: nat, o: nat)
    requires BatchOk(c, b, padRow) && r < |b.slots| && o < Len(b, r)
  {
    RunFits(c, b, padRow, r);
    b.positions[StartOf(b, r) + o] == |base| + o
  }

  ghost predicate ServeStep(c: Config, padRow: nat, s: System, b: Batch, bases: seq<Option<seq<int>>>,
                            ids: seq<seq<seq<int>>>, s': System)
  {
    ValidConfig(c) && RowsOk(c, s.rows, padRow + 1) &&
    BatchOk(c, b, padRow) && DistinctTargets(c, b, padRow) && |bases| == |b.slots| && |ids| == |b.inputIds| &&
    (forall r :: 0 <= r < |b.slots| && bases[r].Some? ==> Entitled(c, s, b, padRow, r, bases[r].value)) &&
    (forall r :: 0 <= r < |b.slots| && Commits(c, b, padRow, r) ==> bases[r].Some?) &&
    // what the forward pass guarantees
    RowsOk(c, HistoryRows(b, s.rows), |b.slots|) &&
    AllServed(c, b, HistoryRows(b, s.rows), padRow, ids) &&
    Committed(c, b, HistoryRows(b, s.rows), s.rows, s'.rows, padRow, |b.slots|) &&
    LiveAfterServe(c, padRow, s, b, bases, s')
  }

  ghost predicate LiveAfterServe(c: Config, padRow: nat, s: System, b: Batch, bases: seq<Option<seq<int>>>, s': System)
    requires BatchOk(c, b, padRow) && |bases| == |b.slots|
  {
    (forall r :: 0 <= r < |b.slots| && Commits(c, b, padRow, r) && bases[r].Some? ==>
      b.slots[r] in s'.live && s'.live[b.slots[r]] == AfterRun(c, b, padRow, r, bases[r].value)) &&
    (forall slot :: slot in s'.live ==>
      (exists r :: 0 <= r < |b.slots| && Commits(c, b, padRow, r) && b.slots[r] == slot) ||
      (slot in s.live && s'.live[slot] == s.live[slot])) &&
    forall slot :: slot in s.live ==> slot in s'.live
  }

  ghost function AfterRun(c: Config, b: Batch, padRow: nat, r: nat, base: seq<int>): seq<int>
    requires BatchOk(c, b, padRow) && r < |b.slots|
  {
    RunFits(c, b, padRow, r);
    base + RunOf(b, r)
  }

  ghost predicate AcceptStep(c: Config, padRow: nat, s: System, drafts: seq<seq<int>>, slots: seq<nat>,
                             counts: seq<nat>, s': System)
  {
    AcceptOk(padRow, drafts, slots, counts) && AcceptedRows(c, s.rows, s'.rows, drafts, slots, counts, |slots|) &&
    s'.live.Keys == s.live.Keys &&
    (forall r :: 0 <= r < |slots| && slots[r] in s.live ==>
      s'.live[slots[r]] == s.live[slots[r]] + drafts[r][..counts[r]]) &&
    forall slot :: slot in s.live && (forall r :: 0 <= r < |slots| ==> slots[r] != slot) ==>
      s'.live[slot] == s.live[slot]
  }

  ghost predicate Step(c: Config, padRow: nat, s: System, e: Event, s': System) {
    match e
    case Serve(b, bases, ids) => ServeStep(c, padRow, s, b, bases, ids, s')
    case Accept(drafts, slots, counts) => AcceptStep(c, padRow, s, drafts, slots, counts, s')
    case Release(slot) => s'.rows == s.rows && s'.live == s.live - {slot}
  }

  // ---- What every step keeps ---------------------------------------------------------------

  /** The row a request's look-backs come from agrees with its base, whatever the slot held before. */
  lemma ReadRowAgrees(c: Config, padRow: nat, s: System, b: Batch, r: nat, base: seq<int>)
    requires Inv(c, padRow, s) && BatchOk(c, b, padRow) && r < |b.slots| && Entitled(c, s, b, padRow, r, base)
    requires RowsOk(c, HistoryRows(b, s.rows), |b.slots|)
    ensures Agrees(c, HistoryRows(b, s.rows)[r], base)
  {
  }

  lemma EndRowAgrees(c: Config, padRow: nat, s: System, b: Batch, r: nat, base: seq<int>)
    requires Inv(c, padRow, s) && BatchOk(c, b, padRow) && r < |b.slots| && Entitled(c, s, b, padRow, r, base)
    requires RowsOk(c, HistoryRows(b, s.rows), |b.slots|)
    ensures Agrees(c, EndRow(c, b, HistoryRows(b, s.rows), padRow, r), AfterRun(c, b, padRow, r, base))
  {
    ReadRowAgrees(c, padRow, s, b, r, base);
    RunFits(c, b, padRow, r);
    NextRowAgrees(c, HistoryRows(b, s.rows)[r], base, RunOf(b, r), Len(b, r));
    assert RunOf(b, r)[..Len(b, r)] == RunOf(b, r);
  }

  lemma ServeKeepsInv(c: Config, padRow: nat, s: System, b: Batch, bases: seq<Option<seq<int>>>,
                      ids: seq<seq<seq<int>>>, s': System)
    requires Inv(c, padRow, s) && ServeStep(c, padRow, s, b, bases, ids, s')
    ensures Inv(c, padRow, s')
  {
    hide Agrees, EndRow, AfterRun, Entitled, ValidConfig, AllServed, Commits, Len, HistoryRows;
    forall slot | slot in s'.live ensures slot < padRow && Agrees(c, s'.rows[slot], s'.live[slot]) {
      if r :| 0 <= r < |b.slots| && Commits(c, b, padRow, r) && b.slots[r] == slot {
        EndRowAgrees(c, padRow, s, b, r, bases[r].value);
      }
    }
  }

  lemma AcceptKeepsInv(c: Config, padRow: nat, s: System, drafts: seq<seq<int>>, slots: seq<nat>,
                       counts: seq<nat>, s': System)
    requires Inv(c, padRow, s) && AcceptStep(c, padRow, s, drafts, slots, counts, s')
    ensures Inv(c, padRow, s')
  {
    hide Agrees, ValidConfig, NextRow;
    forall slot | slot in s'.live ensures slot < padRow && Agrees(c, s'.rows[slot], s'.live[slot]) {
      if r :| 0 <= r < |slots| && slots[r] == slot {
        NextRowAgrees(c, s.rows[slot], s.live[slot], drafts[r], counts[r]);
      }
    }
    forall k | 0 <= k < padRow + 1 ensures |s'.rows[k]| == c.n - 1 {
      if r :| 0 <= r < |slots| && slots[r] == k {
        assert s'.rows[slots[r]] == NextRow(c, s.rows[slots[r]], drafts[r], counts[r]);
      }
    }
  }

  lemma StepKeepsInv(c: Config, padRow: nat, s: System, e: Event, s': System)
    requires Inv(c, padRow, s) && Step(c, padRow, s, e, s')
    ensures Inv(c, padRow, s')
  {
    match e
    case Serve(b, bases, ids) => ServeKeepsInv(c, padRow, s, b, bases, ids, s');
    case Accept(drafts, slots, counts) => AcceptKeepsInv(c, padRow, s, drafts, slots, counts, s');
    case Release(_) =>
  }

  // ---- What every step emits ---------------------------------------------------------------

  /** Every id of a request that is not padding is the reference's id for that position of the request's
      full sequence. */
  ghost predicate EmitsReference(c: Config, padRow: nat, e: Event) {
    e.Serve? ==>
      ValidConfig(c) && BatchOk(c, e.batch, padRow) && |e.ids| == |e.batch.inputIds| && |e.bases| == |e.batch.slots| &&
      forall r, o :: 0 <= r < |e.batch.slots| && e.bases[r].Some? && 0 <= o < Len(e.batch, r) ==>
        EmittedAt(c, padRow, e.batch, e.bases[r].value, e.ids, r, o)
  }

  ghost predicate EmittedAt(c: Config, padRow: nat, b: Batch, base: seq<int>, ids: seq<seq<seq<int>>>, r: nat, o: nat)
    requires ValidConfig(c) && BatchOk(c, b, padRow) && r < |b.slots| && o < Len(b, r) && |ids| == |b.inputIds|
  {
    RunFits(c, b, padRow, r);
    ids[StartOf(b, r) + o] == ReferenceIds(c, AfterRun(c, b, padRow, r, base), |base| + o)
  }

  lemma ServeEmitsReference(c: Config, padRow: nat, s: System, b: Batch, bases: seq<Option<seq<int>>>,
                            ids: seq<seq<seq<int>>>, s': System)
    requires Inv(c, padRow, s) && ServeStep(c, padRow, s, b, bases, ids, s')
    ensures EmitsReference(c, padRow, Serve(b, bases, ids))
  {
    hide Agrees, LiveAfterServe, Committed, SlotWindow, ReferenceIds, LayerIds;
    var rows := HistoryRows(b, s.rows);
    forall r, o | 0 <= r < |b.slots| && bases[r].Some? && 0 <= o < Len(b, r)
      ensures EmittedAt(c, padRow, b, bases[r].value, ids, r, o)
    {
      var base := bases[r].value;
      ReadRowAgrees(c, padRow, s, b, r, base);
      RunFits(c, b, padRow, r);
      RunIdsCorrect(c, rows[r], base, RunOf(b, r), o);
      assert TokenServed(c, b, rows, padRow, ids, r, o);
      assert PositionIs(c, b, padRow, base, r, o);
    }
  }

  // ---- Runs --------------------------------------------------------------------------------

  ghost predicate IsRun(c: Config, padRow: nat, states: seq<System>, events: seq<Event>) {
    |states| == |events| + 1 &&
    forall i :: 0 <= i < |events| ==> Step(c, padRow, states[i], events[i], states[i + 1])
  }

  lemma {:induction false} RunKeeps(c: Config, padRow: nat, states: seq<System>, events: seq<Event>, i: nat)
    requires IsRun(c, padRow, states, events) && Inv(c, padRow, states[0]) && i <= |events|
    ensures Inv(c, padRow, states[i])
    ensures i < |events| ==> EmitsReference(c, padRow, events[i])
  {
    hide Inv, Step, EmitsReference;
    if i > 0 {
      RunKeeps(c, padRow, states, events, i - 1);
      StepKeepsInv(c, padRow, states[i - 1], events[i - 1], states[i]);
    }
    if i < |events| {
      StepEmitsReference(c, padRow, states[i], events[i], states[i + 1]);
    }
  }

  lemma StepEmitsReference(c: Config, padRow: nat, s: System, e: Event, s': System)
    requires Inv(c, padRow, s) && Step(c, padRow, s, e, s')
    ensures EmitsReference(c, padRow, e)
  {
    if e.Serve? {
      ServeEmitsReference(c, padRow, s, e.batch, e.bases, e.ids, s');
    }
  }

  /** A freshly allocated table holds nobody's tokens, whatever its rows hold. */
  lemma FreshTableIsSafe(c: Config, padRow: nat, rows: seq<seq<int>>)
    requires ValidConfig(c) && RowsOk(c, rows, padRow + 1)
    ensures Inv(c, padRow, System(rows, map[]))
  {
  }

  /** Over every run from a fresh table, whatever its rows hold: rows of live slots stay right, and every
      emitted id is the reference's, so what a reused slot held before is never observed. */
  lemma RunsAreSafe(c: Config, padRow: nat, rows: seq<seq<int>>, states: seq<System>, events: seq<Event>, i: nat)
    requires ValidConfig(c) && RowsOk(c, rows, padRow + 1)
    requires IsRun(c, padRow, states, events) && states[0] == System(rows, map[]) && i <= |events|
    ensures Inv(c, padRow, states[i])
    ensures i < |events| ==> EmitsReference(c, padRow, events[i])
  {
    hide Inv, Step, EmitsReference, ValidConfig, RowsOk;
    FreshTableIsSafe(c, padRow, rows);
    RunKeeps(c, padRow, states, events, i);
  }

  /** Two systems that differ only in what dead slots hold emit the same ids for the same batch. */
  lemma StaleRowsInvisible(c: Config, padRow: nat, s: System, t: System, b: Batch, bases: seq<Option<seq<int>>>,
                           ids: seq<seq<seq<int>>>, ids': seq<seq<seq<int>>>, s': System, t': System, r: nat, o: nat)
    requires Inv(c, padRow, s) && Inv(c, padRow, t) && s.live == t.live
    requires ServeStep(c, padRow, s, b, bases, ids, s') && ServeStep(c, padRow, t, b, bases, ids', t')
    requires r < |b.slots| && bases[r].Some? && o < Len(b, r)
    ensures StartOf(b, r) + o < |ids| == |ids'| && ids[StartOf(b, r) + o] == ids'[StartOf(b, r) + o]
  {
    hide ServeStep, Inv;
    assert BatchOk(c, b, padRow) && |ids| == |b.inputIds| == |ids'| by {
      ServeShape(c, padRow, s, b, bases, ids, s');
      ServeShape(c, padRow, t, b, bases, ids', t');
    }
    TokenPlace(c, b, padRow, r, o);
    ServeEmitsReference(c, padRow, s, b, bases, ids, s');
    ServeEmitsReference(c, padRow, t, b, bases, ids', t');
    assert EmittedAt(c, padRow, b, bases[r].value, ids, r, o);
    assert EmittedAt(c, padRow, b, bases[r].value, ids', r, o);
  }

  lemma ServeShape(c: Config, padRow: nat, s: System, b: Batch, bases: seq<Option<seq<int>>>,
                   ids: seq<seq<seq<int>>>, s': System)
    requires ServeStep(c, padRow, s, b, bases, ids, s')
    ensures ValidConfig(c) && BatchOk(c, b, padRow) && |ids| == |b.inputIds| && |bases| == |b.slots|
  {
  }

  // ---- The hasher takes these steps --------------------------------------------------------

  /** Slots of the first upTo requests, updated with what those requests now have. */
  ghost function LiveUpTo(c: Config, padRow: nat, b: Batch, bases: seq<Option<seq<int>>>, live: map<nat, seq<int>>,
                          upTo: nat): map<nat, seq<int>>
    requires BatchOk(c, b, padRow) && upTo <= |b.slots| == |bases|
  {
    if upTo == 0 then live
    else
      var before := LiveUpTo(c, padRow, b, bases, live, upTo - 1);
      if Commits(c, b, padRow, upTo - 1) && bases[upTo - 1].Some? then
        before[b.slots[upTo - 1] := AfterRun(c, b, padRow, upTo - 1, bases[upTo - 1].value)]
      else before
  }

  lemma {:induction false} LiveUpToIs(c: Config, padRow: nat, b: Batch, bases: seq<Option<seq<int>>>, live: map<nat,
                                      seq<int>>, upTo: nat)
    requires BatchOk(c, b, padRow) && upTo <= |b.slots| == |bases| && DistinctTargets(c, b, padRow)
    ensures var after := LiveUpTo(c, padRow, b, bases, live, upTo);
      (forall r :: 0 <= r < upTo && Commits(c, b, padRow, r) && bases[r].Some? ==>
        b.slots[r] in after && after[b.slots[r]] == AfterRun(c, b, padRow, r, bases[r].value)) &&
      forall slot :: slot in after ==>
        (exists r :: 0 <= r < upTo && Commits(c, b, padRow, r) && b.slots[r] == slot) ||
        (slot in live && after[slot] == live[slot])
    ensures forall slot :: slot in live ==> slot in LiveUpTo(c, padRow, b, bases, live, upTo)
  {
    hide Commits, AfterRun;
    if upTo > 0 {
      LiveUpToIs(c, padRow, b, bases, live, upTo - 1);
    }
  }

  /** One forward of the hasher is a serve step: the invariant survives and the ids are the reference's. */
  method ServeBatch(hasher: EngramHasher, b: Batch, ghost s: System, ghost bases: seq<Option<seq<int>>>)
    returns (ids: seq<seq<seq<int>>>, ghost s': System)
    requires hasher.Valid() && s.rows == hasher.history[..] && Inv(hasher.c, hasher.padRow, s)
    requires BatchOk(hasher.c, b, hasher.padRow) && DistinctTargets(hasher.c, b, hasher.padRow) && |bases| == |b.slots|
    requires forall r :: 0 <= r < |b.slots| && bases[r].Some? ==>
      Entitled(hasher.c, s, b, hasher.padRow, r, bases[r].value)
    requires forall r :: 0 <= r < |b.slots| && Commits(hasher.c, b, hasher.padRow, r) ==> bases[r].Some?
    modifies hasher.history
    ensures hasher.Valid() && s'.rows == hasher.history[..]
    ensures Step(hasher.c, hasher.padRow, s, Serve(b, bases, ids), s') && Inv(hasher.c, hasher.padRow, s')
    ensures EmitsReference(hasher.c, hasher.padRow, Serve(b, bases, ids))
  {
    hide Entitled, Commits, AllServed, Committed, EmitsReference, LiveUpTo, AfterRun, RowsOk, BatchOk;
    ghost var c, padRow := hasher.c, hasher.padRow;
    ids := hasher.Forward(b);
    s' := System(hasher.history[..], LiveUpTo(c, padRow, b, bases, s.live, |b.slots|));
    LiveUpToIs(c, padRow, b, bases, s.live, |b.slots|);
    assert LiveAfterServe(c, padRow, s, b, bases, s');
    ServeKeepsInv(c, padRow, s, b, bases, ids, s');
    ServeEmitsReference(c, padRow, s, b, bases, ids, s');
  }

  /** One commit of accepted blocks is an accept step. */
  method AcceptBlocks(hasher: EngramHasher, drafts: seq<seq<int>>, slots: seq<nat>, counts: seq<nat>, ghost s: System)
    returns (ghost s': System)
    requires hasher.Valid() && s.rows == hasher.history[..] && Inv(hasher.c, hasher.padRow, s)
    requires AcceptOk(hasher.padRow, drafts, slots, counts)
    modifies hasher.history
    ensures hasher.Valid() && s'.rows == hasher.history[..]
    ensures Step(hasher.c, hasher.padRow, s, Accept(drafts, slots, counts), s') && Inv(hasher.c, hasher.padRow, s')
  {
    hide AcceptedRows, Agrees, Inv, AcceptStep, AcceptOk, AcceptedLive, RowsOk, ValidConfig;
    hasher.CommitAfterVerify(drafts, slots, counts);
    s' := System(hasher.history[..], AcceptedLive(hasher.padRow, drafts, slots, counts, s.live));
    AcceptTaken(hasher.c, hasher.padRow, s, drafts, slots, counts, hasher.history[..]);
    AcceptKeepsInv(hasher.c, hasher.padRow, s, drafts, slots, counts, s');
  }

  lemma AcceptTaken(c: Config, padRow: nat, s: System, drafts: seq<seq<int>>, slots: seq<nat>, counts: seq<nat>,
                    rows: seq<seq<int>>)
    requires AcceptOk(padRow, drafts, slots, counts) && AcceptedRows(c, s.rows, rows, drafts, slots, counts, |slots|)
    ensures AcceptStep(c, padRow, s, drafts, slots, counts,
                       System(rows, AcceptedLive(padRow, drafts, slots, counts, s.live)))
  {
    hide AcceptedRows;
  }

  ghost function AcceptedLive(padRow: nat, drafts: seq<seq<int>>, slots: seq<nat>, counts: seq<nat>, live: map<nat,
                              seq<int>>): map<nat, seq<int>>
    requires AcceptOk(padRow, drafts, slots, counts)
  {
    map slot | slot in live ::
      if exists r :: 0 <= r < |slots| && slots[r] == slot then
        var r :| 0 <= r < |slots| && slots[r] == slot; live[slot] + drafts[r][..counts[r]]
      else live[slot]
  }
}

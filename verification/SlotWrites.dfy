/** State pools indexed by slot, slot 0 reserved: what a batch of writes and snapshots does to what each slot
    stands for, and to what it holds. */
module SlotWrites {
  /** What committing a row does to what slots stand for. */
  datatype Write<T> = Write(owned: bool, slot: nat, grown: T, snap: nat, kept: T)

  ghost function Applied<T>(live: map<nat, T>, w: Write<T>): map<nat, T> {
    if !w.owned then live - {w.snap}
    else if w.snap == 0 then live[w.slot := w.grown]
    else live[w.slot := w.grown][w.snap := w.kept]
  }

  ghost function AppliedAll<T>(live: map<nat, T>, ws: seq<Write<T>>): map<nat, T> {
    if ws == [] then live else Applied(AppliedAll(live, ws[..|ws| - 1]), ws[|ws| - 1])
  }

  ghost predicate SeparateWrites<T>(ws: seq<Write<T>>) {
    (forall r :: 0 <= r < |ws| ==> (ws[r].owned <==> ws[r].slot != 0)) &&
    (forall r, r' :: 0 <= r < r' < |ws| && ws[r].slot != 0 ==> ws[r].slot != ws[r'].slot) &&
    (forall r, r' :: 0 <= r < |ws| && 0 <= r' < |ws| && ws[r].snap != 0 ==> ws[r].snap != ws[r'].slot) &&
    forall r, r' :: 0 <= r < r' < |ws| && ws[r].snap != 0 ==> ws[r].snap != ws[r'].snap
  }

  ghost predicate WriteShows<T>(live: map<nat, T>, w: Write<T>) {
    w.slot in live && live[w.slot] == w.grown && (w.snap != 0 ==> w.snap in live && live[w.snap] == w.kept)
  }

  ghost predicate WrittenBy<T>(ws: seq<Write<T>>, slot: nat) {
    exists r :: 0 <= r < |ws| && ws[r].owned && (ws[r].slot == slot || ws[r].snap == slot)
  }

  ghost predicate MissedBy<T>(ws: seq<Write<T>>, slot: nat) {
    forall r :: 0 <= r < |ws| ==> ws[r].slot != slot && ws[r].snap != slot
  }

  ghost predicate Accounted<T>(live: map<nat, T>, ws: seq<Write<T>>, after: map<nat, T>, slot: nat)
    requires slot in after
  {
    slot != 0 && (WrittenBy(ws, slot) || (MissedBy(ws, slot) && slot in live && live[slot] == after[slot]))
  }

  lemma AccountedStep<T>(live: map<nat, T>, rest: seq<Write<T>>, w: Write<T>, before: map<nat, T>, slot: nat)
    requires SeparateWrites(rest + [w]) && slot in Applied(before, w)
    requires slot in before ==> Accounted(live, rest, before, slot)
    ensures Accounted(live, rest + [w], Applied(before, w), slot)
  {
    var ws := rest + [w];
    assert ws[|rest|] == w;
    if !(w.owned && (w.slot == slot || w.snap == slot)) {
      if WrittenBy(rest, slot) {
        var r :| 0 <= r < |rest| && rest[r].owned && (rest[r].slot == slot || rest[r].snap == slot);
        assert ws[r] == rest[r];
      }
    }
  }

  lemma ShownStep<T>(rest: seq<Write<T>>, w: Write<T>, before: map<nat, T>, r: nat)
    requires SeparateWrites(rest + [w]) && r < |rest| && rest[r].owned && WriteShows(before, rest[r])
    ensures WriteShows(Applied(before, w), rest[r])
  {
    var ws := rest + [w];
    assert ws[r] == rest[r] && ws[|rest|] == w;
  }

  lemma MissedStays<T>(live: map<nat, T>, rest: seq<Write<T>>, w: Write<T>, before: map<nat, T>, slot: nat)
    requires MissedBy(rest + [w], slot) && (MissedBy(rest, slot) ==> slot in before)
    ensures slot in Applied(before, w)
  {
    var ws := rest + [w];
    assert ws[|rest|] == w && forall r :: 0 <= r < |rest| ==> ws[r] == rest[r];
  }

  lemma FewerWrites<T>(rest: seq<Write<T>>, w: Write<T>)
    requires SeparateWrites(rest + [w])
    ensures SeparateWrites(rest)
  {
    var ws := rest + [w];
    assert forall r :: 0 <= r < |rest| ==> ws[r] == rest[r];
  }

  /** Every write shows in the end, and every slot is accounted for. */
  lemma {:induction false} AppliedAllIs<T>(live: map<nat, T>, ws: seq<Write<T>>)
    requires SeparateWrites(ws) && 0 !in live
    ensures forall r :: 0 <= r < |ws| && ws[r].owned ==> WriteShows(AppliedAll(live, ws), ws[r])
    ensures forall slot :: slot in AppliedAll(live, ws) ==> Accounted(live, ws, AppliedAll(live, ws), slot)
    ensures forall slot :: slot in live && MissedBy(ws, slot) ==> slot in AppliedAll(live, ws)
  {
    if ws == [] {
    } else {
      hide SeparateWrites, Applied, WriteShows, Accounted;
      var rest, w := ws[..|ws| - 1], ws[|ws| - 1];
      assert ws == rest + [w];
      FewerWrites(rest, w);
      AppliedAllIs(live, rest);
      var before, after := AppliedAll(live, rest), AppliedAll(live, ws);
      forall slot | slot in after ensures Accounted(live, ws, after, slot) {
        AccountedStep(live, rest, w, before, slot);
      }
      forall slot | slot in live && MissedBy(ws, slot) ensures slot in after {
        MissedStays(live, rest, w, before, slot);
      }
      forall r | 0 <= r < |ws| && ws[r].owned ensures WriteShows(after, ws[r]) {
        if r < |rest| {
          ShownStep(rest, w, before, r);
        } else {
          OwnShown(rest, w, before);
        }
      }
    }
  }

  lemma OwnShown<T>(rest: seq<Write<T>>, w: Write<T>, before: map<nat, T>)
    requires SeparateWrites(rest + [w]) && w.owned
    ensures WriteShows(Applied(before, w), w)
  {
    var ws := rest + [w];
    assert ws[|rest|] == w;
  }

  // ---- The pool itself ---------------------------------------------------------------------

  ghost predicate DistinctNonzero(indices: seq<nat>) {
    forall r, r' :: 0 <= r < r' < |indices| && indices[r] != 0 ==> indices[r] != indices[r']
  }

  /** after is before with values at indices; slot 0 may end as anything. */
  ghost predicate Landed<T>(before: seq<T>, after: seq<T>, indices: seq<nat>, values: seq<T>, upTo: nat) {
    |after| == |before| && upTo <= |indices| == |values| && (forall r :: 0 <= r < upTo ==> indices[r] < |before|) &&
    (forall r :: 0 <= r < upTo && indices[r] != 0 ==> after[indices[r]] == values[r]) &&
    forall slot :: 0 < slot < |before| && (forall r :: 0 <= r < upTo ==> indices[r] != slot) ==>
      after[slot] == before[slot]
  }

  method Scatter<T>(rows: array<T>, indices: seq<nat>, values: seq<T>)
    requires |indices| == |values| && DistinctNonzero(indices)
    requires forall r :: 0 <= r < |indices| ==> indices[r] < rows.Length
    modifies rows
    ensures Landed(old(rows[..]), rows[..], indices, values, |indices|)
    ensures forall k :: 0 <= k < rows.Length ==> rows[k] == old(rows[k]) || rows[k] in values
  {
    for r := 0 to |indices|
      invariant Landed(old(rows[..]), rows[..], indices, values, r)
      invariant forall k :: 0 <= k < rows.Length ==> rows[k] == old(rows[k]) || rows[k] in values
    {
      rows[indices[r]] := values[r];
    }
  }
}

/** One embedding table split two ways: checkpoint shards loaded in any order into a rank's row range, and
    lookups in which every rank contributes the rows it owns. */
module ShardedTable {
  import opened Wrappers
  import opened LinearAlgebra
  import opened NumberTheory
  import opened HashArithmetic

  // ---- Row ranges of the ranks -------------------------------------------------------------

  function RangeStart(rows: nat, ranks: nat, rank: nat): (start: nat)
    requires ranks > 0
  {
    rows * rank / ranks
  }

  predicate InRange(rows: nat, ranks: nat, rank: nat, i: int)
    requires ranks > 0
  {
    RangeStart(rows, ranks, rank) <= i < RangeStart(rows, ranks, rank + 1)
  }

  lemma FloorMonotone(a: nat, b: nat, d: nat)
    requires d > 0 && a <= b
    ensures a / d <= b / d
  {
    assert a == d * (a / d) + a % d && b == d * (b / d) + b % d;
    if b / d + 1 <= a / d {
      MonotoneProduct(b / d + 1, a / d, d, d);
    }
  }

  /** Ranks start at the floor of their share of the rows. */
  lemma RangeStartIsFloor(rows: nat, ranks: nat, rank: nat)
    requires ranks > 0
    ensures RangeStart(rows, ranks, rank) * ranks <= rows * rank < RangeStart(rows, ranks, rank) * ranks + ranks
  {
    assert rows * rank == ranks * (rows * rank / ranks) + (rows * rank) % ranks;
  }

  lemma RangeStartStep(rows: nat, ranks: nat, rank: nat)
    requires ranks > 0
    ensures RangeStart(rows, ranks, rank) <= RangeStart(rows, ranks, rank + 1)
    ensures RangeStart(rows, ranks, 0) == 0 && RangeStart(rows, ranks, ranks) == rows
  {
    assert rows * rank <= rows * (rank + 1);
    FloorMonotone(rows * rank, rows * (rank + 1), ranks);
    DivModUnique(rows * ranks, ranks, rows, 0);
  }

  lemma {:induction false} RangeStartMonotone(rows: nat, ranks: nat, a: nat, b: nat)
    requires ranks > 0 && a <= b
    ensures RangeStart(rows, ranks, a) <= RangeStart(rows, ranks, b)
    decreases b - a
  {
    hide RangeStart;
    if a < b {
      RangeStartMonotone(rows, ranks, a, b - 1);
      RangeStartStep(rows, ranks, b - 1);
    }
  }

  lemma {:induction false} OwnerBelow(rows: nat, ranks: nat, k: nat, i: nat) returns (rank: nat)
    requires ranks > 0 && i < RangeStart(rows, ranks, k)
    ensures rank < k && InRange(rows, ranks, rank, i)
  {
    hide RangeStart;
    RangeStartStep(rows, ranks, k);
    assert k > 0;
    if RangeStart(rows, ranks, k - 1) <= i {
      rank := k - 1;
    } else {
      rank := OwnerBelow(rows, ranks, k - 1, i);
    }
  }

  /** Floor-split ranges partition the table, for any size and number of ranks. */
  lemma RangesPartition(rows: nat, ranks: nat, i: nat) returns (owner: nat)
    requires ranks > 0 && i < rows
    ensures owner < ranks
    ensures forall rank: nat :: InRange(rows, ranks, rank, i) <==> rank == owner
  {
    hide RangeStart;
    RangeStartStep(rows, ranks, 0);
    owner := OwnerBelow(rows, ranks, ranks, i);
    forall rank: nat ensures InRange(rows, ranks, rank, i) <==> rank == owner {
      if rank < owner {
        RangeStartMonotone(rows, ranks, rank + 1, owner);
      } else if rank > owner {
        RangeStartMonotone(rows, ranks, owner + 1, rank);
      }
    }
  }

  // ---- Checkpoint shards into a rank's rows ------------------------------------------------

  datatype Overlap = Overlap(sourceStart: nat, destinationStart: nat, rowCount: nat)

  predicate InBoth(checkpointStart: int, checkpointRows: int, tpStart: int, tpEnd: int, g: int) {
    checkpointStart <= g < checkpointStart + checkpointRows && tpStart <= g < tpEnd
  }

  /** Bad bounds are refused; otherwise the overlap names exactly the rows in both, on either side. */
  method ComputeOverlap(checkpointStart: int, checkpointRows: int, tpStart: int, tpEnd: int)
    returns (result: Result<Option<Overlap>>)
    ensures result.Err? <==> checkpointStart < 0 || checkpointRows < 0 || tpStart < 0 || tpEnd < tpStart
    ensures result == Ok(None) ==> forall g :: !InBoth(checkpointStart, checkpointRows, tpStart, tpEnd, g)
    ensures result.Ok? && result.value.Some? ==>
      var o := result.value.value;
      o.rowCount > 0 && checkpointStart + o.sourceStart == tpStart + o.destinationStart &&
      forall g :: InBoth(checkpointStart, checkpointRows, tpStart, tpEnd, g) <==>
        0 <= g - (tpStart + o.destinationStart) < o.rowCount
  {
    if checkpointStart < 0 || checkpointRows < 0 || tpStart < 0 || tpEnd < tpStart {
      return Err;
    }
    var checkpointEnd := checkpointStart + checkpointRows;
    var overlapStart := if checkpointStart < tpStart then tpStart else checkpointStart;
    var overlapEnd := if checkpointEnd < tpEnd then checkpointEnd else tpEnd;
    if overlapStart >= overlapEnd {
      return Ok(None);
    }
    return Ok(Some(Overlap(overlapStart - checkpointStart, overlapStart - tpStart, overlapEnd - overlapStart)));
  }

  type Row = seq<int>

  /** A checkpoint shard: its first row's place in the table, and its rows, all of one width. */
  datatype Shard = Shard(start: int, rows: seq<Row>, width: nat)

  /** Row i of a rank's table after a shard: the shard's row where it has one. */
  function Overlaid(before: seq<Row>, shard: Shard, tpStart: int, tpEnd: int): (after: seq<Row>)
    ensures |after| == |before|
  {
    seq(|before|, i requires 0 <= i < |before| =>
      if InBoth(shard.start, |shard.rows|, tpStart, tpEnd, tpStart + i) then shard.rows[tpStart + i - shard.start]
      else before[i])
  }

  /** Copies the overlapping rows of a shard into a rank's table, in place. */
  method CopyShard(destination: array<Row>, width: nat, shard: Shard, tpStart: int, tpEnd: int)
    returns (result: Result<nat>)
    modifies destination
    ensures result.Ok? <==> (shard.width == width && destination.Length >= tpEnd - tpStart &&
                             shard.start >= 0 && tpEnd >= tpStart >= 0)
    ensures destination[..] == if result.Ok? then Overlaid(old(destination[..]), shard, tpStart, tpEnd)
                               else old(destination[..])
  {
    if shard.width != width || destination.Length < tpEnd - tpStart {
      return Err;
    }
    var overlap := ComputeOverlap(shard.start, |shard.rows|, tpStart, tpEnd);
    if overlap.Err? {
      return Err;
    }
    if overlap.value.None? {
      assert destination[..] == Overlaid(old(destination[..]), shard, tpStart, tpEnd);
      return Ok(0);
    }
    var o := overlap.value.value;
    OverlapFits(shard, tpStart, tpEnd, o);
    forall k | 0 <= k < o.rowCount {
      destination[o.destinationStart + k] := shard.rows[o.sourceStart + k];
    }
    forall i | 0 <= i < destination.Length
      ensures destination[i] == Overlaid(old(destination[..]), shard, tpStart, tpEnd)[i]
    {
      if InBoth(shard.start, |shard.rows|, tpStart, tpEnd, tpStart + i) {
        var k := i - o.destinationStart;
        assert destination[o.destinationStart + k] == shard.rows[o.sourceStart + k];
      }
    }
    return Ok(o.rowCount);
  }

  lemma OverlapFits(shard: Shard, tpStart: int, tpEnd: int, o: Overlap)
    requires o.rowCount > 0 && shard.start + o.sourceStart == tpStart + o.destinationStart
    requires forall g :: InBoth(shard.start, |shard.rows|, tpStart, tpEnd, g) <==>
      0 <= g - (tpStart + o.destinationStart) < o.rowCount
    ensures o.sourceStart + o.rowCount <= |shard.rows| && o.destinationStart + o.rowCount <= tpEnd - tpStart
  {
    assert InBoth(shard.start, |shard.rows|, tpStart, tpEnd, tpStart + o.destinationStart + o.rowCount - 1);
  }

  // ---- All shards, in any order ------------------------------------------------------------

  function ShardSize(total: nat, parts: nat): nat
    requires parts > 0
  {
    (total + parts - 1) / parts
  }

  function FirstRow(total: nat, parts: nat, k: nat): nat
    requires parts > 0
  {
    k * ShardSize(total, parts)
  }

  function ExpectedRows(total: nat, parts: nat, k: nat): nat
    requires parts > 0
  {
    var left := total - FirstRow(total, parts, k);
    var rows := if ShardSize(total, parts) < left then ShardSize(total, parts) else left;
    if rows < 0 then 0 else rows
  }

  /** Every row is in exactly the shard its index divides to, and shards beyond the table are empty. */
  lemma ShardOf(total: nat, parts: nat, i: nat, k: nat)
    requires parts > 0 && i < total
    ensures ShardSize(total, parts) > 0 && i / ShardSize(total, parts) < parts
    ensures FirstRow(total, parts, k) <= i < FirstRow(total, parts, k) + ExpectedRows(total, parts, k) <==>
      k == i / ShardSize(total, parts)
  {
    var size := ShardSize(total, parts);
    CeilCovers(total, parts);
    QuotientIs(i, size);
    QuotientBounds(i, size, parts);
    if k < i / size {
      assert (k + 1) * size <= (i / size) * size by { MonotoneProduct(k + 1, i / size, size, size); }
      assert (k + 1) * size == k * size + size;
    } else if k > i / size {
      assert (i / size + 1) * size <= k * size by { MonotoneProduct(i / size + 1, k, size, size); }
      assert (i / size + 1) * size == (i / size) * size + size;
    }
  }

  lemma CeilCovers(total: nat, parts: nat)
    requires parts > 0
    ensures total > 0 ==> ShardSize(total, parts) > 0
    ensures total <= parts * ShardSize(total, parts)
  {
    var a := total + parts - 1;
    assert a == parts * (a / parts) + a % parts;
    if total > 0 {
      FloorMonotone(parts, a, parts);
    }
  }

  /** The shard size is the least that covers the table. */
  lemma ShardSizeIsLeast(total: nat, parts: nat)
    requires parts > 0
    ensures total <= parts * ShardSize(total, parts) < total + parts
  {
    CeilCovers(total, parts);
    var a := total + parts - 1;
    assert a == parts * (a / parts) + a % parts;
  }

  /** A shard is expected to hold as many rows as the table has in it. */
  lemma {:induction false} ExpectedIsCount(total: nat, parts: nat, k: nat)
    requires parts > 0 && total > 0
    ensures ShardSize(total, parts) > 0
    ensures ExpectedRows(total, parts, k) == |set i: nat | i < total && InShard(total, parts, k, i)|
  {
    hide FirstRow, ExpectedRows, ShardSize;
    var first, count := FirstRow(total, parts, k), ExpectedRows(total, parts, k);
    ShardOf(total, parts, 0, k);
    var rows := set i: nat | i < total && InShard(total, parts, k, i);
    RowsInTable(total, parts, k);
    forall i: nat ensures i in rows <==> first <= i < first + count {
      if i < total {
        ShardOf(total, parts, i, k);
      }
    }
    IntervalSize(first, count);
    assert rows == Interval(first, count);
  }

  lemma RowsInTable(total: nat, parts: nat, k: nat)
    requires parts > 0
    ensures ExpectedRows(total, parts, k) > 0 ==> FirstRow(total, parts, k) + ExpectedRows(total, parts, k) <= total
  {
    hide FirstRow;
  }

  ghost function Interval(first: nat, count: nat): set<nat> {
    if count == 0 then {} else Interval(first, count - 1) + {first + count - 1}
  }

  lemma {:induction false} IntervalSize(first: nat, count: nat)
    ensures |Interval(first, count)| == count
    ensures forall i: nat :: i in Interval(first, count) <==> first <= i < first + count
  {
    if count > 0 {
      IntervalSize(first, count - 1);
    }
  }

  lemma QuotientIs(i: nat, size: nat)
    requires size > 0
    ensures (i / size) * size <= i < (i / size) * size + size
  {
    assert i == size * (i / size) + i % size;
  }

  lemma QuotientBounds(i: nat, size: nat, parts: nat)
    requires size > 0 && i < parts * size
    ensures i / size < parts
  {
    QuotientIs(i, size);
    if i / size >= parts {
      MonotoneProduct(parts, i / size, size, size);
    }
  }

  /** A named checkpoint entry. */
  datatype Entry = Entry(index: nat, rows: seq<Row>, width: nat)

  predicate Accepted(total: nat, parts: nat, width: nat, e: Entry)
    requires parts > 0
  {
    e.index < parts && |e.rows| == ExpectedRows(total, parts, e.index) && e.width == width
  }

  /** A known index, the table's width, and as many rows as the table has in that shard. */
  ghost predicate Fits(total: nat, parts: nat, width: nat, e: Entry)
    requires parts > 0
  {
    e.index < parts && e.width == width &&
    |e.rows| == if total == 0 then 0 else |set i: nat | i < total && InShard(total, parts, e.index, i)|
  }

  predicate InShard(total: nat, parts: nat, k: nat, i: nat)
    requires parts > 0
  {
    ShardSize(total, parts) > 0 && i / ShardSize(total, parts) == k
  }

  lemma AcceptedFits(total: nat, parts: nat, width: nat, e: Entry)
    requires parts > 0
    ensures Accepted(total, parts, width, e) <==> Fits(total, parts, width, e)
  {
    if total > 0 {
      ExpectedIsCount(total, parts, e.index);
    } else {
      NothingExpected(parts, e.index);
    }
  }

  lemma NothingExpected(parts: nat, k: nat)
    requires parts > 0
    ensures ExpectedRows(0, parts, k) == 0
  {
    hide FirstRow;
  }

  function ShardOfEntry(total: nat, parts: nat, e: Entry): Shard
    requires parts > 0
  {
    Shard(FirstRow(total, parts, e.index), e.rows, e.width)
  }

  function AfterEntries(before: seq<Row>, total: nat, parts: nat, entries: seq<Entry>, tpStart: int,
                        tpEnd: int): (after: seq<Row>)
    requires parts > 0
    ensures |after| == |before|
  {
    if entries == [] then before
    else
      Overlaid(AfterEntries(before, total, parts, entries[..|entries| - 1], tpStart, tpEnd),
               ShardOfEntry(total, parts, entries[|entries| - 1]), tpStart, tpEnd)
  }

  /** Loads checkpoint entries one after another; an unknown index or a wrong shape is refused. */
  method LoadEntries(weight: array<Row>, width: nat, total: nat, parts: nat, entries: seq<Entry>, tpStart: nat,
                     tpEnd: nat)
    returns (ok: bool)
    requires parts > 0 && tpStart <= tpEnd && weight.Length >= tpEnd - tpStart
    modifies weight
    ensures ok <==> forall j :: 0 <= j < |entries| ==> Accepted(total, parts, width, entries[j])
    ensures ok <==> forall j :: 0 <= j < |entries| ==> Fits(total, parts, width, entries[j])
    ensures ok ==> weight[..] == AfterEntries(old(weight[..]), total, parts, entries, tpStart, tpEnd)
  {
    hide Overlaid, ShardSize, ExpectedRows, FirstRow, Fits;
    forall j | 0 <= j < |entries|
      ensures Accepted(total, parts, width, entries[j]) <==> Fits(total, parts, width, entries[j])
    {
      AcceptedFits(total, parts, width, entries[j]);
    }
    for j := 0 to |entries|
      invariant forall i :: 0 <= i < j ==> Accepted(total, parts, width, entries[i])
      invariant weight[..] == AfterEntries(old(weight[..]), total, parts, entries[..j], tpStart, tpEnd)
    {
      if !Accepted(total, parts, width, entries[j]) {
        return false;
      }
      assert entries[..j + 1][..j] == entries[..j];
      var copied := CopyShard(weight, width, ShardOfEntry(total, parts, entries[j]), tpStart, tpEnd);
    }
    assert entries[..|entries|] == entries;
    return true;
  }

  /** The entry is its shard of a table. */
  ghost predicate SliceOf(table: seq<Row>, parts: nat, e: Entry)
    requires parts > 0
  {
    |e.rows| == ExpectedRows(|table|, parts, e.index) &&
    forall i :: 0 <= i < |e.rows| && FirstRow(|table|, parts, e.index) + i < |table| ==>
      e.rows[i] == table[FirstRow(|table|, parts, e.index) + i]
  }

  /** One shard of the table writes exactly the rows that divide to it. */
  lemma OverlaidRow(before: seq<Row>, table: seq<Row>, parts: nat, e: Entry, tpStart: nat, tpEnd: nat, i: nat)
    requires parts > 0 && tpStart <= tpEnd <= |table| && |before| >= tpEnd - tpStart && i < tpEnd - tpStart
    requires SliceOf(table, parts, e)
    ensures ShardSize(|table|, parts) > 0
    ensures Overlaid(before, ShardOfEntry(|table|, parts, e), tpStart, tpEnd)[i] ==
      if e.index == (tpStart + i) / ShardSize(|table|, parts) then table[tpStart + i] else before[i]
  {
    hide ShardSize, ExpectedRows, FirstRow;
    ShardOf(|table|, parts, tpStart + i, e.index);
    var first := FirstRow(|table|, parts, e.index);
    var shard := (tpStart + i) / ShardSize(|table|, parts);
    assert InBoth(first, |e.rows|, tpStart, tpEnd, tpStart + i) <==> e.index == shard;
    if e.index == (tpStart + i) / ShardSize(|table|, parts) {
      assert e.rows[tpStart + i - first] == table[first + (tpStart + i - first)];
    }
  }

  /** A row of the rank holds the table's row once its shard has been loaded, wherever in the order. */
  lemma {:induction false} LoadedRow(before: seq<Row>, table: seq<Row>, parts: nat, entries: seq<Entry>, tpStart: nat,
                                     tpEnd: nat, i: nat)
    requires parts > 0 && tpStart <= tpEnd <= |table| && |before| >= tpEnd - tpStart && i < tpEnd - tpStart
    requires forall j :: 0 <= j < |entries| ==> SliceOf(table, parts, entries[j])
    ensures ShardSize(|table|, parts) > 0
    ensures AfterEntries(before, |table|, parts, entries, tpStart, tpEnd)[i] ==
      if exists j :: 0 <= j < |entries| && entries[j].index == (tpStart + i) / ShardSize(|table|, parts)
      then table[tpStart + i] else before[i]
  {
    hide ShardSize, ExpectedRows, FirstRow, SliceOf, Overlaid;
    ShardOf(|table|, parts, tpStart + i, 0);
    if entries == [] {
    } else {
      var rest, last := entries[..|entries| - 1], entries[|entries| - 1];
      LoadedRow(before, table, parts, rest, tpStart, tpEnd, i);
      OverlaidRow(AfterEntries(before, |table|, parts, rest, tpStart, tpEnd), table, parts, last, tpStart, tpEnd, i);
    }
  }

  /** Loading every shard, in any order and with repeats, fills a rank with exactly its slice. */
  lemma AllShardsFill(before: seq<Row>, table: seq<Row>, parts: nat, entries: seq<Entry>, tpStart: nat, tpEnd: nat)
    requires parts > 0 && tpStart <= tpEnd <= |table| && |before| == tpEnd - tpStart
    requires forall j :: 0 <= j < |entries| ==> SliceOf(table, parts, entries[j])
    requires forall k :: 0 <= k < parts ==> Present(entries, k)
    ensures AfterEntries(before, |table|, parts, entries, tpStart, tpEnd) == table[tpStart..tpEnd]
  {
    hide ShardSize, AfterEntries, SliceOf;
    forall i: nat | i < |before|
      ensures AfterEntries(before, |table|, parts, entries, tpStart, tpEnd)[i] == table[tpStart + i]
    {
      ShardOf(|table|, parts, tpStart + i, 0);
      LoadedRow(before, table, parts, entries, tpStart, tpEnd, i);
      assert Present(entries, (tpStart + i) / ShardSize(|table|, parts));
    }
  }

  ghost predicate Present(entries: seq<Entry>, k: nat) {
    exists j :: 0 <= j < |entries| && entries[j].index == k
  }

  // ---- Lookups over the ranks --------------------------------------------------------------

  /** Rows of weights and the scales of their blocks. */
  datatype Table = Table(weight: seq<seq<real>>, scale: seq<seq<real>>, dim: nat, block: nat)

  ghost predicate ValidTable(t: Table) {
    t.block > 0 && |t.weight| == |t.scale| &&
    forall i :: 0 <= i < |t.weight| ==> |t.weight[i]| == t.dim && |t.scale[i]| * t.block == t.dim
  }

  /** A row's value: every weight by the scale of its block. */
  function Dequantized(w: seq<real>, s: seq<real>, block: nat): (v: seq<real>)
    requires block > 0 && |s| * block == |w|
    ensures |v| == |w|
  {
    seq(|w|, j requires 0 <= j < |w| => BlockInRange(j, |s|, block); w[j] * s[j / block])
  }

  lemma BlockInRange(j: nat, blocks: nat, block: nat)
    requires block > 0 && j < blocks * block
    ensures j / block < blocks
  {
    QuotientBounds(j, block, blocks);
  }

  /** What the rank holding rows start up to start + rows contributes for an index. */
  function OwnedRow(weight: seq<seq<real>>, scale: seq<seq<real>>, dim: nat, block: nat, start: nat,
                    index: int): (v: seq<real>)
    requires block > 0 && |weight| == |scale|
    requires forall i :: 0 <= i < |weight| ==> |weight[i]| == dim && |scale[i]| * block == dim
    ensures |v| == dim
  {
    if weight == [] then Zeros(dim)
    else
      var owned := 0 <= index - start < |weight|;
      var local := if owned then index - start else 0;
      var value := Dequantized(weight[local], scale[local], block);
      if owned then value else Zeros(dim)
  }

  /** Contribution of one rank of a table split over ranks. */
  function RankRow(t: Table, ranks: nat, rank: nat, index: int): (v: seq<real>)
    requires ValidTable(t) && rank < ranks
    ensures |v| == t.dim
  {
    var lo, hi := RangeStart(|t.weight|, ranks, rank), RangeStart(|t.weight|, ranks, rank + 1);
    RangeStartStep(|t.weight|, ranks, rank);
    RangeStartMonotone(|t.weight|, ranks, rank + 1, ranks);
    OwnedRow(t.weight[lo..hi], t.scale[lo..hi], t.dim, t.block, lo, index)
  }

  function AddVectors(a: seq<real>, b: seq<real>): (v: seq<real>)
    requires |a| == |b|
    ensures |v| == |a|
  {
    seq(|a|, j requires 0 <= j < |a| => a[j] + b[j])
  }

  /** The all-reduce of the first ranks' contributions. */
  function AllReduce(t: Table, ranks: nat, upTo: nat, index: int): (v: seq<real>)
    requires ValidTable(t) && upTo <= ranks
    ensures |v| == t.dim
  {
    if upTo == 0 then Zeros(t.dim)
    else AddVectors(AllReduce(t, ranks, upTo - 1, index), RankRow(t, ranks, upTo - 1, index))
  }

  /** Lookup in the whole table; nothing owns an index outside it. */
  function FlatLookup(t: Table, index: int): (v: seq<real>)
    requires ValidTable(t)
    ensures |v| == t.dim
  {
    if 0 <= index < |t.weight| then Dequantized(t.weight[index], t.scale[index], t.block) else Zeros(t.dim)
  }

  lemma RankRowIs(t: Table, ranks: nat, rank: nat, index: int)
    requires ValidTable(t) && rank < ranks
    ensures RankRow(t, ranks, rank, index) ==
      if InRange(|t.weight|, ranks, rank, index) then FlatLookup(t, index) else Zeros(t.dim)
  {
    hide RangeStart, Dequantized;
    RangeStartStep(|t.weight|, ranks, rank);
    RangeStartMonotone(|t.weight|, ranks, rank + 1, ranks);
    RangeStartStep(|t.weight|, ranks, 0);
  }

  lemma {:induction false} ReducedUpTo(t: Table, ranks: nat, upTo: nat, owner: nat, index: int)
    requires ValidTable(t) && upTo <= ranks
    requires ranks > 0 && forall rank: nat :: rank < ranks ==>
      (InRange(|t.weight|, ranks, rank, index) <==> rank == owner && 0 <= index < |t.weight|)
    ensures AllReduce(t, ranks, upTo, index) ==
      if owner < upTo && 0 <= index < |t.weight| then FlatLookup(t, index) else Zeros(t.dim)
  {
    hide RankRow, FlatLookup, RangeStart, InRange;
    if upTo > 0 {
      ReducedUpTo(t, ranks, upTo - 1, owner, index);
      RankRowIs(t, ranks, upTo - 1, index);
    }
  }

  /** The sum over ranks of masked lookups is the flat-table lookup. */
  lemma ShardedLookupIsFlat(t: Table, ranks: nat, index: int)
    requires ValidTable(t) && ranks > 0
    ensures AllReduce(t, ranks, ranks, index) == FlatLookup(t, index)
  {
    hide RangeStart, AllReduce;
    var rows, owner: nat := |t.weight|, 0;
    if 0 <= index < rows {
      owner := RangesPartition(rows, ranks, index);
    } else {
      forall rank: nat | rank < ranks ensures !InRange(rows, ranks, rank, index) {
        NothingOwns(rows, ranks, rank, index);
      }
    }
    ReducedUpTo(t, ranks, ranks, owner, index);
  }

  /** And that is, entry by entry, the weight times the scale of its block. */
  lemma ReducedEntry(t: Table, ranks: nat, index: int, j: nat)
    requires ValidTable(t) && ranks > 0 && j < t.dim
    ensures 0 <= index < |t.weight| ==> j / t.block < |t.scale[index]|
    ensures 0 <= index < |t.weight| ==>
      AllReduce(t, ranks, ranks, index)[j] == t.weight[index][j] * t.scale[index][j / t.block]
    ensures !(0 <= index < |t.weight|) ==> AllReduce(t, ranks, ranks, index)[j] == 0.0
  {
    hide AllReduce;
    ShardedLookupIsFlat(t, ranks, index);
    if 0 <= index < |t.weight| {
      BlockInRange(j, |t.scale[index]|, t.block);
    }
  }

  lemma NothingOwns(rows: nat, ranks: nat, rank: nat, index: int)
    requires ranks > 0 && !(0 <= index < rows) && rank < ranks
    ensures !InRange(rows, ranks, rank, index)
  {
    hide RangeStart;
    RangeStartStep(rows, ranks, rank);
    RangeStartMonotone(rows, ranks, rank + 1, ranks);
  }

  // ---- The same sum on raw bytes -----------------------------------------------------------

  /** Row ranges given by cut points, as padded vocabulary shards are. */
  ghost predicate Cuts(cuts: seq<nat>, rows: nat) {
    |cuts| >= 1 && cuts[0] == 0 && cuts[|cuts| - 1] == rows &&
    forall r :: 0 <= r < |cuts| - 1 ==> cuts[r] <= cuts[r + 1]
  }

  /** Sum of two bytes as signed 8-bit integers wrap around. */
  function AddBytes(a: int, b: int): int {
    (a + b) % 256
  }

  /** Byte j of what rank r contributes for an index: 0 for rows it does not hold. */
  function OwnedByte(table: seq<seq<int>>, cuts: seq<nat>, r: nat, index: int, j: nat): int
    requires r + 1 < |cuts| && (0 <= index < |table| ==> j < |table[index]|)
  {
    if cuts[r] <= index < cuts[r + 1] && index < |table| then table[index][j] else 0
  }

  /** Byte j after the first ranks have been summed. */
  function ReducedByte(table: seq<seq<int>>, cuts: seq<nat>, upTo: nat, index: int, j: nat): int
    requires upTo < |cuts| && (0 <= index < |table| ==> j < |table[index]|)
  {
    if upTo == 0 then 0
    else AddBytes(ReducedByte(table, cuts, upTo - 1, index, j), OwnedByte(table, cuts, upTo - 1, index, j))
  }

  lemma {:induction false} CutsAscend(cuts: seq<nat>, rows: nat, r: nat)
    requires Cuts(cuts, rows) && r < |cuts|
    ensures cuts[r] <= rows
    decreases |cuts| - r
  {
    if r < |cuts| - 1 {
      CutsAscend(cuts, rows, r + 1);
    }
  }

  /** Summing raw bytes of one-owner rows gives the owner's bytes, wrap-around or not. */
  lemma {:induction false} ByteSumUpTo(table: seq<seq<int>>, cuts: seq<nat>, upTo: nat, index: nat, j: nat)
    requires Cuts(cuts, |table|) && upTo < |cuts| && index < |table| && j < |table[index]| && 0 <= table[index][j] < 256
    ensures ReducedByte(table, cuts, upTo, index, j) == if index < cuts[upTo] then table[index][j] else 0
  {
    if upTo > 0 {
      ByteSumUpTo(table, cuts, upTo - 1, index, j);
      assert cuts[upTo - 1] <= cuts[upTo - 1 + 1];
    }
  }

  lemma ByteSumIsFlat(table: seq<seq<int>>, cuts: seq<nat>, index: nat, j: nat)
    requires Cuts(cuts, |table|) && index < |table| && j < |table[index]| && 0 <= table[index][j] < 256
    ensures ReducedByte(table, cuts, |cuts| - 1, index, j) == table[index][j]
  {
    ByteSumUpTo(table, cuts, |cuts| - 1, index, j);
  }
}

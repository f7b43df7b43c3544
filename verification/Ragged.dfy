/** Flat batches of runs of different lengths: prefix sums, and the two ways a token finds its request. */
module Ragged {
  import opened NumberTheory
  import opened HashArithmetic
  import opened Sequences

  function Sum(lens: seq<nat>): nat {
    if lens == [] then 0 else Sum(lens[..|lens| - 1]) + lens[|lens| - 1]
  }

  /** Row index of every token. */
  function RepeatInterleave(lens: seq<nat>): (rows: seq<nat>)
    ensures |rows| == Sum(lens)
  {
    if lens == [] then []
    else RepeatInterleave(lens[..|lens| - 1]) + seq(lens[|lens| - 1], i => |lens| - 1)
  }

  lemma {:induction false} SumPrefix(lens: seq<nat>, r: nat)
    requires r < |lens|
    ensures Sum(lens[..r]) + lens[r] == Sum(lens[..r + 1]) <= Sum(lens)
  {
    assert lens[..r + 1][..r] == lens[..r];
    if r + 1 == |lens| {
      assert lens[..r + 1] == lens;
    } else {
      var n := |lens| - 1;
      SumPrefix(lens[..n], r);
      assert lens[..n][..r] == lens[..r] && lens[..n][..r + 1] == lens[..r + 1];
    }
  }

  lemma {:induction false} RepeatInterleaveAt(lens: seq<nat>, r: nat, o: nat)
    requires r < |lens| && o < lens[r]
    ensures Sum(lens[..r]) + o < Sum(lens) && RepeatInterleave(lens)[Sum(lens[..r]) + o] == r
  {
    hide RepeatInterleave, Sum;
    var n := |lens| - 1;
    SumPrefix(lens, r);
    if r == n {
      assert lens[..r] == lens[..n];
      LastRun(lens, o);
    } else {
      RepeatInterleaveAt(lens[..n], r, o);
      assert lens[..n][..r] == lens[..r];
      EarlierRuns(lens, Sum(lens[..r]) + o);
    }
  }

  lemma LastRun(lens: seq<nat>, o: nat)
    requires lens != [] && o < lens[|lens| - 1]
    ensures Sum(lens[..|lens| - 1]) + o < Sum(lens)
    ensures RepeatInterleave(lens)[Sum(lens[..|lens| - 1]) + o] == |lens| - 1
  {
  }

  lemma EarlierRuns(lens: seq<nat>, t: nat)
    requires lens != [] && t < Sum(lens[..|lens| - 1])
    ensures t < Sum(lens) && RepeatInterleave(lens)[t] == RepeatInterleave(lens[..|lens| - 1])[t]
  {
  }

  lemma {:induction false} RepeatInterleaveRange(lens: seq<nat>, t: nat)
    requires t < Sum(lens)
    ensures RepeatInterleave(lens)[t] < |lens|
  {
    if t < Sum(lens[..|lens| - 1]) {
      RepeatInterleaveRange(lens[..|lens| - 1], t);
    }
  }

  // ---- Runs of one fixed width -------------------------------------------------------------

  lemma BlockIndex(r: nat, block: nat, o: nat, rows: nat)
    requires o < block && r < rows
    ensures r * block + o < rows * block && (r * block + o) / block == r
  {
    MonotoneProduct(r + 1, rows, block, block);
    NextMultiple(r, block);
    assert r * block == block * r;
    DivModUnique(r * block + o, block, r, o);
  }

  lemma BlockRow(t: nat, block: nat, rows: nat)
    requires t < rows * block
    ensures block > 0 && t / block < rows
  {
    assert block == 0 ==> rows * block == 0;
    QuotientBelow(t, block, rows);
  }

  lemma QuotientBelow(t: nat, block: nat, rows: nat)
    ensures block > 0 ==> (t / block >= rows ==> t >= rows * block)
  {
    if block > 0 && t / block >= rows {
      MonotoneProduct(rows, t / block, block, block);
      assert t == block * (t / block) + t % block;
    }
  }

  /** Running starts, with the total at the end. */
  function Starts(lens: seq<nat>): (s: seq<int>)
    ensures |s| == |lens| + 1
  {
    seq(|lens| + 1, r requires 0 <= r <= |lens| => Sum(lens[..r]))
  }

  /** Insertion point to the right of equal entries, scanning a sorted sequence from its end. */
  function SearchSortedRight(s: seq<int>, x: int): (i: nat)
    ensures i <= |s|
  {
    if s == [] || s[|s| - 1] <= x then |s| else SearchSortedRight(s[..|s| - 1], x)
  }

  lemma {:induction false} SearchSortedBounds(s: seq<int>, x: int)
    ensures var i := SearchSortedRight(s, x); (i > 0 ==> s[i - 1] <= x) && forall k :: i <= k < |s| ==> s[k] > x
  {
    if s != [] && s[|s| - 1] > x {
      SearchSortedBounds(s[..|s| - 1], x);
    }
  }

  lemma {:induction false} StartsMonotone(lens: seq<nat>, r: nat, r': nat)
    requires r <= r' <= |lens|
    ensures Starts(lens)[r] <= Starts(lens)[r']
  {
    if r < r' {
      StartsMonotone(lens, r, r' - 1);
      SumPrefix(lens, r' - 1);
    }
  }

  /** The search finds the request whose run holds the position, past any empty runs. */
  lemma SearchFindsOwner(lens: seq<nat>, r: nat, o: nat)
    requires r < |lens| && o < lens[r]
    ensures SearchSortedRight(Starts(lens), Starts(lens)[r] + o) == r + 1
  {
    var s, x := Starts(lens), Starts(lens)[r] + o;
    var i := SearchSortedRight(s, x);
    SearchSortedBounds(s, x);
    SumPrefix(lens, r);
    assert s[r + 1] == s[r] + lens[r];
    if i > r + 1 {
      StartsMonotone(lens, r + 1, i - 1);
    }
  }

  /** Every position below the total lies in exactly one run. */
  lemma {:induction false} OwnerOf(lens: seq<nat>, x: nat) returns (r: nat, o: nat)
    requires x < Sum(lens)
    ensures r < |lens| && o < lens[r] && x == Starts(lens)[r] + o
  {
    var n := |lens| - 1;
    if x >= Sum(lens[..n]) {
      r, o := n, x - Sum(lens[..n]);
    } else {
      r, o := OwnerOf(lens[..n], x);
      assert lens[..n][..r] == lens[..r];
    }
  }
}

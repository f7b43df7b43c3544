/** The two programs for the gated delta rule, as loops, proved against the recurrence. */
module DeltaRuleLoops {
  import opened Wrappers
  import opened LinearAlgebra
  import opened GatedDelta
  import opened ChunkedDelta
  import opened Sequences
  import NumberTheory

  // ---- Forward substitution in place -------------------------------------------------------

  function Delta01(i: int, j: int): real { if i == j then 1.0 else 0.0 }

  /** Rows of the solved identity are unit lower triangular. */
  lemma {:induction false} InverseRowShape(a: Mat, i: nat, c: nat)
    requires IsSquare(a) && i <= c < |a|
    ensures Solve(a, Identity(|a|), |a|, i + 1)[i][c] == Delta01(i, c)
  {
    var n := |a|;
    var x := Solve(a, Identity(n), n, i);
    forall j | 0 <= j < i ensures x[j][c] == 0.0 {
      InverseRowShape(a, j, c);
      SolvePrefix(a, Identity(n), n, j + 1, i);
      assert x[j] == x[..j + 1][j];
    }
    CombAtZero(a[i][..i], x, c);
  }

  lemma {:induction false} CombAtZero(c: Vec, m: Mat, p: nat)
    requires |c| <= |m| && forall j :: 0 <= j < |c| ==> p < |m[j]| && m[j][p] == 0.0
    ensures CombAt(c, m, p) == 0.0
  {
    if |c| > 0 {
      CombAtZero(c[..|c| - 1], m, p);
      assert Times(c[|c| - 1], 0.0) == 0.0;
    }
  }

  /** One entry of the substitution: the negated row against rows that lack their unit diagonal. */
  lemma {:induction false} SubstitutionEntry(c: Vec, x: Mat, sub: Mat, p: nat)
    requires |c| <= |x| && |c| <= |sub|
    requires forall j :: 0 <= j < |c| ==> p < |x[j]| && p < |sub[j]| && sub[j][p] == x[j][p] - Delta01(j, p)
    ensures (if p < |c| then -c[p] else 0.0) + CombAt(Scale(-1.0, c), sub, p) == -CombAt(c, x, p)
  {
    if |c| > 0 {
      var l := |c| - 1;
      SubstitutionEntry(c[..l], x, sub, p);
      ScalePrefix(-1.0, c, l);
      assert Times(-c[l], x[l][p] - Delta01(l, p)) == -Times(c[l], x[l][p]) + Times(c[l], Delta01(l, p));
      assert Scale(-1.0, c)[l] == -c[l];
    }
  }

  /** Row r of the working matrix once it has been substituted, and before. */
  ghost predicate Done(ut: array2<real>, x: Mat, r: nat)
    requires r < ut.Length0 == ut.Length1 == |x| && IsSquare(x)
    reads ut
  {
    forall c :: 0 <= c < |x| ==> ut[r, c] == x[r][c] - Delta01(r, c)
  }

  ghost predicate Pending(ut: array2<real>, a: Mat, r: nat)
    requires r < ut.Length0 == ut.Length1 == |a| && IsSquare(a)
    reads ut
  {
    forall c :: 0 <= c < |a| ==> ut[r, c] == if c < r then -a[r][c] else 0.0
  }

  /** One pass of the loop: row i, from its own clone and a clone of the rows above it. */
  method SubstituteRow(ut: array2<real>, a: Mat, ghost x: Mat, i: nat)
    requires IsSquare(a) && ut.Length0 == ut.Length1 == |a| && i < |a|
    requires x == Solve(a, Identity(|a|), |a|, |a|) && IsSquare(x)
    requires forall r :: 0 <= r < i ==> Done(ut, x, r)
    requires Pending(ut, a, i)
    modifies ut
    ensures Done(ut, x, i)
    ensures forall r, c :: 0 <= r < |a| && 0 <= c < |a| && r != i ==> ut[r, c] == old(ut[r, c])
  {
    hide Solve, CombAt, Identity;
    var row := seq(i, c requires 0 <= c < i reads ut => ut[i, c]);
    var sub := seq(i, r requires 0 <= r < i reads ut => seq(i, c requires 0 <= c < i reads ut => ut[r, c]));
    forall r, c | 0 <= r < i && 0 <= c < i ensures sub[r][c] == x[r][c] - Delta01(r, c) {
      assert Done(ut, x, r);
    }
    RowFact(a, i, x, row, sub);
    for c := 0 to i
      invariant forall d :: 0 <= d < c ==> ut[i, d] == x[i][d]
      invariant forall d :: i <= d < |a| ==> ut[i, d] == 0.0
      invariant forall r, d :: 0 <= r < |a| && 0 <= d < |a| && r != i ==> ut[r, d] == old(ut[r, d])
    {
      ut[i, c] := row[c] + CombAt(row, sub, c);
    }
  }

  /** The strictly lower part negated, rows substituted top down in place, then the identity added
      back: the result is the solved identity. */
  method InvertUnitLower(a: Mat) returns (t: Mat)
    requires IsSquare(a)
    ensures t == Solve(a, Identity(|a|), |a|, |a|)
  {
    hide Solve, Identity;
    var n := |a|;
    var ut := new real[n, n]((i, j) requires 0 <= i < n && 0 <= j < n => if j < i then -a[i][j] else 0.0);
    ghost var x := Solve(a, Identity(n), n, n);
    forall c | 0 <= c < n ensures x[0][c] == Delta01(0, c) {
      RowShape(a, 0, c);
    }
    var i := 1;
    while i < n
      invariant 1 <= i <= n || n <= 1
      invariant forall r :: 0 <= r < i && r < n ==> Done(ut, x, r)
      invariant forall r :: 1 <= i <= r < n ==> Pending(ut, a, r)
    {
      label Before:
      SubstituteRow(ut, a, x, i);
      forall r | 0 <= r < i ensures Done(ut, x, r) {
        assert old@Before(Done(ut, x, r));
      }
      forall r | i < r < n ensures Pending(ut, a, r) {
        assert old@Before(Pending(ut, a, r));
      }
      i := i + 1;
    }
    t := seq(n, r requires 0 <= r < n reads ut => seq(n, c requires 0 <= c < n reads ut => ut[r, c] + Delta01(r, c)));
    forall r | 0 <= r < n ensures t[r] == x[r] {
      assert Done(ut, x, r);
    }
  }

  lemma RowNegated(row: Vec, c: Vec)
    requires |row| == |c| && forall j :: 0 <= j < |c| ==> row[j] == -c[j]
    ensures row == Scale(-1.0, c)
  {
    forall j | 0 <= j < |c| ensures row[j] == Scale(-1.0, c)[j] {
      assert Times(-1.0, c[j]) == -c[j];
    }
  }

  lemma RowFact(a: Mat, i: nat, x: Mat, row: Vec, sub: Mat)
    requires IsSquare(a) && i < |a| && x == Solve(a, Identity(|a|), |a|, |a|)
    requires |row| == |sub| == i && IsMat(sub, i)
    requires forall c :: 0 <= c < i ==> row[c] == -a[i][c]
    requires forall r, c :: 0 <= r < i && 0 <= c < i ==> sub[r][c] == x[r][c] - Delta01(r, c)
    ensures forall c :: 0 <= c < i ==> row[c] + CombAt(row, sub, c) == x[i][c]
    ensures forall c :: i <= c < |a| ==> x[i][c] == Delta01(i, c)
  {
    hide Solve, CombAt, Scale, Times, Identity;
    RowNegated(row, a[i][..i]);
    forall c | 0 <= c < i ensures row[c] + CombAt(row, sub, c) == x[i][c] {
      SubstitutionEntry(a[i][..i], x, sub, c);
      IdentityRow(a, i, c);
    }
    forall c | i <= c < |a| ensures x[i][c] == Delta01(i, c) {
      RowShape(a, i, c);
    }
  }

  lemma IdentityRow(a: Mat, i: nat, c: nat)
    requires IsSquare(a) && c < i < |a|
    ensures Solve(a, Identity(|a|), |a|, |a|)[i][c] == -CombAt(a[i][..i], Solve(a, Identity(|a|), |a|, |a|), c)
  {
    hide Solve, CombAt;
    SolveRow(a, Identity(|a|), |a|, i);
    assert Identity(|a|)[i][c] == 0.0;
  }

  lemma RowShape(a: Mat, i: nat, c: nat)
    requires IsSquare(a) && i <= c < |a|
    ensures Solve(a, Identity(|a|), |a|, |a|)[i][c] == Delta01(i, c)
  {
    hide Solve;
    var n := |a|;
    InverseRowShape(a, i, c);
    SolvePrefix(a, Identity(n), n, i + 1, n);
    assert Solve(a, Identity(n), n, n)[i] == Solve(a, Identity(n), n, n)[..i + 1][i];
  }

  // ---- Both ways of solving the UT system --------------------------------------------------

  function ColumnOf(m: Mat, p: nat): (v: Vec)
    requires forall i :: 0 <= i < |m| ==> p < |m[i]|
    ensures |v| == |m|
  {
    seq(|m|, i requires 0 <= i < |m| => m[i][p])
  }

  lemma {:induction false} CombIsDot(c: Vec, m: Mat, p: nat)
    requires |c| <= |m| && forall j :: 0 <= j < |m| ==> p < |m[j]|
    ensures CombAt(c, m, p) == Dot(c, ColumnOf(m, p)[..|c|])
  {
    if |c| > 0 {
      CombIsDot(c[..|c| - 1], m, p);
      assert ColumnOf(m, p)[..|c|][..|c| - 1] == ColumnOf(m, p)[..|c| - 1];
    }
  }

  function Product(t: Mat, d: Mat, n: nat): (m: Mat)
    requires IsMat(t, |d|) && IsMat(d, n)
    ensures |m| == |t| && IsMat(m, n)
  {
    seq(|t|, i requires 0 <= i < |t| => Comb(t[i], d, n))
  }

  /** Column p of a solution solves the system with column p of the right-hand side, and back. */
  lemma SolvesByColumn(a: Mat, x: Mat, d: Mat, n: nat)
    requires IsSquare(a) && |x| == |d| == |a| && IsMat(x, n) && IsMat(d, n)
    ensures SolvesMat(a, x, d, n) <==> forall p :: 0 <= p < n ==> Solves(a, ColumnOf(x, p), ColumnOf(d, p))
  {
    hide Dot, CombAt;
    forall i, p | 0 <= i < |a| && 0 <= p < n
      ensures CombAt(a[i][..i], x, p) == Dot(a[i][..i], ColumnOf(x, p)[..i])
    {
      CombIsDot(a[i][..i], x, p);
    }
    if forall p :: 0 <= p < n ==> Solves(a, ColumnOf(x, p), ColumnOf(d, p)) {
      forall i, p | 0 <= i < |a| && 0 <= p < n
        ensures x[i][p] == d[i][p] - CombAt(a[i][..i], x, p)
      {
        assert Solves(a, ColumnOf(x, p), ColumnOf(d, p));
        assert ColumnOf(x, p)[i] == x[i][p] && ColumnOf(d, p)[i] == d[i][p];
      }
    }
  }

  lemma SolvesMatUnique(a: Mat, x: Mat, y: Mat, d: Mat, n: nat)
    requires IsSquare(a) && SolvesMat(a, x, d, n) && SolvesMat(a, y, d, n)
    ensures x == y
  {
    hide Solves;
    SolvesByColumn(a, x, d, n);
    SolvesByColumn(a, y, d, n);
    forall p | 0 <= p < n ensures ColumnOf(x, p) == ColumnOf(y, p) {
      SolutionsEqual(a, ColumnOf(x, p), ColumnOf(y, p), ColumnOf(d, p));
    }
    forall i | 0 <= i < |a| ensures x[i] == y[i] {
      forall p | 0 <= p < n ensures x[i][p] == y[i][p] {
        assert ColumnOf(x, p)[i] == ColumnOf(y, p)[i];
      }
    }
  }

  lemma IdentityReads(n: nat, s: Vec)
    requires |s| == n
    ensures Reads(Identity(n), s) == s
  {
    forall i | 0 <= i < n ensures Reads(Identity(n), s)[i] == s[i] {
      DotUnit(n, i, s);
    }
  }

  /** Multiplying by the inverse solves the system, so both branches agree. */
  lemma InverseSolves(a: Mat, d: Mat, n: nat)
    requires IsSquare(a) && |d| == |a| && IsMat(d, n)
    ensures Product(Solve(a, Identity(|a|), |a|, |a|), d, n) == Solve(a, d, n, |a|)
  {
    hide Solve, Identity, Solves, Dot, CombAt, SolvesMat;
    var t := Solve(a, Identity(|a|), |a|, |a|);
    var x := Product(t, d, n);
    SolveCorrect(a, Identity(|a|), |a|);
    forall p | 0 <= p < n ensures Solves(a, ColumnOf(x, p), ColumnOf(d, p)) {
      ProductColumn(a, t, d, n, p);
    }
    SolvesByColumn(a, x, d, n);
    SolveCorrect(a, d, n);
    SolvesMatUnique(a, x, Solve(a, d, n, |a|), d, n);
  }

  lemma ProductColumn(a: Mat, t: Mat, d: Mat, n: nat, p: nat)
    requires IsSquare(a) && |d| == |a| && IsMat(d, n) && p < n
    requires SolvesMat(a, t, Identity(|a|), |a|)
    ensures Solves(a, ColumnOf(Product(t, d, n), p), ColumnOf(d, p))
  {
    hide Solves, Identity, Dot, CombAt;
    var s, x := ColumnOf(d, p), Product(t, d, n);
    SolvedRead(a, t, Identity(|a|), s);
    IdentityReads(|a|, s);
    forall i | 0 <= i < |a| ensures ColumnOf(x, p)[i] == Reads(t, s)[i] {
      CombIsDot(t[i], d, p);
      assert s[..|a|] == s;
    }
    assert ColumnOf(x, p) == Reads(t, s);
  }

  /** The matrix the substitution inverts: unit diagonal, a below it, zero above. */
  function UnitLower(a: Mat): (m: Mat)
    requires IsSquare(a)
    ensures |m| == |a| && IsSquare(m)
  {
    seq(|a|, i requires 0 <= i < |a| =>
      seq(|a|, j requires 0 <= j < |a| => if j < i then a[i][j] else Delta01(i, j)))
  }

  lemma UnitLowerRead(a: Mat, v: Vec, i: nat)
    requires IsSquare(a) && |v| == |a| && i < |a|
    ensures Dot(UnitLower(a)[i], v) == Dot(a[i][..i], v[..i]) + v[i]
  {
    var row := UnitLower(a)[i];
    assert row == row[..i + 1] + Zeros(|a| - (i + 1));
    DotZeroTail(row[..i + 1], |a| - (i + 1), v);
    assert row[..i + 1][..i] == a[i][..i] && v[..i + 1][..i] == v[..i];
    assert Times(1.0, v[i]) == v[i];
  }

  /** The substituted matrix is the inverse on both sides. */
  lemma TwoSidedInverse(a: Mat)
    requires IsSquare(a)
    ensures Product(UnitLower(a), Solve(a, Identity(|a|), |a|, |a|), |a|) == Identity(|a|)
    ensures Product(Solve(a, Identity(|a|), |a|, |a|), UnitLower(a), |a|) == Identity(|a|)
  {
    hide Solve, Identity, SolvesMat, UnitLower, Product;
    var t := Solve(a, Identity(|a|), |a|, |a|);
    SolveCorrect(a, Identity(|a|), |a|);
    SolutionTimesLower(a, t);
    InverseSolves(a, UnitLower(a), |a|);
    SolveCorrect(a, UnitLower(a), |a|);
    IdentitySolves(a);
    SolvesMatUnique(a, Identity(|a|), Solve(a, UnitLower(a), |a|, |a|), UnitLower(a), |a|);
  }

  lemma SolutionTimesLower(a: Mat, t: Mat)
    requires IsSquare(a) && SolvesMat(a, t, Identity(|a|), |a|)
    ensures Product(UnitLower(a), t, |a|) == Identity(|a|)
  {
    hide CombAt, Dot, UnitLower;
    var n, l, id := |a|, UnitLower(a), Identity(|a|);
    forall i | 0 <= i < n ensures Product(l, t, n)[i] == id[i] {
      forall p | 0 <= p < n ensures Product(l, t, n)[i][p] == id[i][p] {
        CombIsDot(l[i], t, p);
        CombIsDot(a[i][..i], t, p);
        assert ColumnOf(t, p)[..n] == ColumnOf(t, p);
        UnitLowerRead(a, ColumnOf(t, p), i);
      }
    }
  }

  lemma IdentitySolves(a: Mat)
    requires IsSquare(a)
    ensures SolvesMat(a, Identity(|a|), UnitLower(a), |a|)
  {
    hide Dot, UnitLower, Identity, SolvesMat;
    var n, l, id := |a|, UnitLower(a), Identity(|a|);
    forall p | 0 <= p < n ensures Solves(a, ColumnOf(id, p), ColumnOf(l, p)) {
      forall i | 0 <= i < n ensures ColumnOf(id, p)[i] == ColumnOf(l, p)[i] - Dot(a[i][..i], ColumnOf(id, p)[..i]) {
        IdentityColumn(a, i, p);
      }
    }
    SolvesByColumn(a, id, l, n);
  }

  lemma IdentityColumn(a: Mat, i: nat, p: nat)
    requires IsSquare(a) && i < |a| && p < |a|
    ensures ColumnOf(Identity(|a|), p)[i]
         == ColumnOf(UnitLower(a), p)[i] - Dot(a[i][..i], ColumnOf(Identity(|a|), p)[..i])
  {
    var c := ColumnOf(Identity(|a|), p);
    if p < i {
      assert c[..i] == Unit(i, p);
      DotComm(a[i][..i], c[..i]);
      DotUnit(i, p, a[i][..i]);
    } else {
      assert c[..i] == [] + Zeros(i);
      DotComm(a[i][..i], c[..i]);
      DotZeroTail([], i, a[i][..i]);
    }
  }

  /** new_values and k_cumdecay: the triangular solver, or the substituted inverse when exporting. */
  method SolveUt(a: Mat, vBeta: Mat, dv: nat, kBeta: Mat, dk: nat, exporting: bool)
      returns (values: Mat, kCum: Mat)
    requires IsSquare(a) && |vBeta| == |kBeta| == |a| && IsMat(vBeta, dv) && IsMat(kBeta, dk)
    ensures values == Solve(a, vBeta, dv, |a|) && kCum == Solve(a, kBeta, dk, |a|)
  {
    hide Solve;
    if !exporting {
      values := Solve(a, vBeta, dv, |a|);
      kCum := Solve(a, kBeta, dk, |a|);
    } else {
      var t := InvertUnitLower(a);
      values, kCum := Product(t, vBeta, dv), Product(t, kBeta, dk);
      InverseSolves(a, vBeta, dv);
      InverseSolves(a, kBeta, dk);
    }
  }

  // ---- The token loop ----------------------------------------------------------------------

  function Start(initial: Option<State>, dk: nat, dv: nat): (s: State)
    requires initial.Some? ==> |initial.value| == dv && IsMat(initial.value, dk)
    ensures |s| == dv && IsMat(s, dk)
  {
    if initial.Some? then initial.value else seq(dv, r => Zeros(dk))
  }

  /** A state of the given shape, every entry of which is zero. */
  ghost predicate Blank(s: State, dk: nat, dv: nat) {
    |s| == dv && IsMat(s, dk) && forall r, i :: 0 <= r < dv && 0 <= i < dk ==> s[r][i] == 0.0
  }

  /** What the first token reads where there was no state: its own value, weighted by how its query meets its key. */
  ghost predicate FirstReadsItself(ts: seq<Token>, out: seq<Vec>, dk: nat, dv: nat)
    requires Shaped(ts, dk, dv)
  {
    |out| == |ts| && (ts != [] ==>
      |out[0]| == dv && forall r :: 0 <= r < dv ==> out[0][r] == ts[0].beta * ts[0].v[r] * Dot(ts[0].q, ts[0].k))
  }

  lemma NothingRead(k: Vec)
    ensures Dot(Zeros(|k|), k) == 0.0
  {
    DotZeroTail([], |k|, k);
    assert [] + Zeros(|k|) == Zeros(|k|) && k[..0] == [];
  }

  lemma FirstColumn(e: real -> real, s: Vec, t: Token, r: nat)
    requires |t.q| == |t.k| == |s| && r < |t.v| && forall i :: 0 <= i < |s| ==> s[i] == 0.0
    ensures Dot(t.q, StepColumn(e, s, t, r)) == t.beta * t.v[r] * Dot(t.q, t.k)
  {
    var n := |s|;
    assert s == Zeros(n) && Scale(e(t.g), s) == Zeros(n);
    NothingRead(t.k);
    NothingRead(t.q);
    DotComm(t.q, s);
    DotMix(t.q, e(t.g), s, Delta(e, s, t, r), t.k);
    assert Delta(e, s, t, r) == t.v[r] * t.beta;
  }

  /** From a blank state. */
  lemma FirstOutput(e: real -> real, ts: seq<Token>, s: State, dk: nat, dv: nat)
    requires Shaped(ts, dk, dv) && Blank(s, dk, dv)
    ensures FirstReadsItself(ts, Outputs(e, ts, s, dk), dk, dv)
  {
    if ts != [] {
      hide Dot, StepColumn;
      var t := ts[0];
      assert ts[..1] == [t] && ts[..1][..0] == [];
      forall r | 0 <= r < dv ensures OutputAt(e, ts, s, dk, 0)[r] == t.beta * t.v[r] * Dot(t.q, t.k) {
        FirstColumn(e, s[r], t, r);
        assert ColumnAfter(e, [t], dk, dv, s[r], r) == StepColumn(e, s[r], t, r);
      }
    }
  }

  /** Outputs and state of a run: from the state handed in, or from all zeros where there is none. */
  ghost predicate RunsFrom(e: real -> real, ts: seq<Token>, initial: Option<State>, out: seq<Vec>, end: State, dk: nat,
                           dv: nat)
    requires Shaped(ts, dk, dv)
  {
    match initial
    case Some(s) => |s| == dv && IsMat(s, dk) && out == Outputs(e, ts, s, dk) && end == StateAfter(e, ts, s, dk)
    case None =>
      FirstReadsItself(ts, out, dk, dv) &&
      forall s :: Blank(s, dk, dv) ==> out == Outputs(e, ts, s, dk) && end == StateAfter(e, ts, s, dk)
  }

  lemma StartsRight(e: real -> real, ts: seq<Token>, initial: Option<State>, dk: nat, dv: nat)
    requires Shaped(ts, dk, dv) && (initial.Some? ==> |initial.value| == dv && IsMat(initial.value, dk))
    ensures var s := Start(initial, dk, dv);
      RunsFrom(e, ts, initial, Outputs(e, ts, s, dk), StateAfter(e, ts, s, dk), dk, dv)
  {
    hide FirstReadsItself;
    var start := Start(initial, dk, dv);
    if initial.None? {
      assert Blank(start, dk, dv);
      FirstOutput(e, ts, start, dk, dv);
      forall s | Blank(s, dk, dv) ensures s == start {
        forall r | 0 <= r < dv ensures s[r] == start[r] {
        }
      }
    }
  }

  method RecurrentRule(e: real -> real, ts: seq<Token>, dk: nat, dv: nat, initial: Option<State>, wantState: bool)
      returns (out: seq<Vec>, final: Option<State>)
    requires Shaped(ts, dk, dv)
    requires initial.Some? ==> |initial.value| == dv && IsMat(initial.value, dk)
    ensures out == Outputs(e, ts, Start(initial, dk, dv), dk)
    ensures final == if wantState then Some(StateAfter(e, ts, Start(initial, dk, dv), dk)) else None
    ensures RunsFrom(e, ts, initial, out, StateAfter(e, ts, Start(initial, dk, dv), dk), dk, dv)
  {
    hide Dot, Mix, Delta, RunsFrom;
    ghost var s0 := Start(initial, dk, dv);
    StartsRight(e, ts, initial, dk, dv);
    var state := Start(initial, dk, dv);
    out := seq(|ts|, i => Zeros(dv));
    for i := 0 to |ts|
      invariant |out| == |ts|
      invariant state == StateAfter(e, ts[..i], s0, dk)
      invariant forall j :: 0 <= j < i ==> out[j] == OutputAt(e, ts, s0, dk, j)
    {
      assert ts[..i + 1][..i] == ts[..i];
      ghost var before := state;
      state := seq(dv, r requires 0 <= r < dv => StepColumn(e, state[r], ts[i], r));
      assert state == StateAfter(e, ts[..i + 1], s0, dk);
      out := out[i := seq(dv, r requires 0 <= r < dv => Dot(ts[i].q, state[r]))];
      assert out[i] == OutputAt(e, ts, s0, dk, i);
    }
    assert ts[..|ts|] == ts;
    assert out == Outputs(e, ts, s0, dk);
    final := if wantState then Some(state) else None;
  }

  // ---- The chunk loop ----------------------------------------------------------------------

  function Pad(dk: nat, dv: nat): Token {
    Token(Zeros(dk), Zeros(dk), Zeros(dv), 0.0, 0.0)
  }

  function Padding(n: nat, dk: nat, dv: nat): (ts: seq<Token>)
    ensures |ts| == n && Shaped(ts, dk, dv)
  {
    seq(n, i => Pad(dk, dv))
  }

  /** Zero padding leaves the state as it is. */
  lemma {:induction false} PaddingKeepsState(e: real -> real, n: nat, s: State, dk: nat)
    requires ExpLaw(e) && IsMat(s, dk)
    ensures StateAfter(e, Padding(n, dk, |s|), s, dk) == s
  {
    forall r | 0 <= r < |s| ensures ColumnAfter(e, Padding(n, dk, |s|), dk, |s|, s[r], r) == s[r] {
      PaddingKeepsColumn(e, n, dk, |s|, s[r], r);
    }
  }

  lemma {:induction false} PaddingKeepsColumn(e: real -> real, n: nat, dk: nat, dv: nat, s: Vec, r: nat)
    requires ExpLaw(e) && |s| == dk && r < dv
    ensures ColumnAfter(e, Padding(n, dk, dv), dk, dv, s, r) == s
  {
    if n > 0 {
      PaddingKeepsColumn(e, n - 1, dk, dv, s, r);
      assert Padding(n, dk, dv)[..n - 1] == Padding(n - 1, dk, dv);
      hide Dot;
      assert Delta(e, s, Pad(dk, dv), r) == 0.0;
      assert StepColumn(e, s, Pad(dk, dv), r) == s;
    }
  }

  /** One iteration of the scan computes what the recurrence computes over the chunk. */
  lemma ChunkCorrect(e: real -> real, chunk: seq<Token>, dk: nat, s: State, values: Mat, kCum: Mat, r: nat)
    requires ExpLaw(e) && IsMat(s, dk) && Shaped(chunk, dk, |s|) && r < |s|
    requires values == Solve(UtSystem(e, chunk, dk, |s|), VBeta(chunk, dk, |s|), |s|, |chunk|)
    requires kCum == Solve(UtSystem(e, chunk, dk, |s|), DecayedKBeta(e, chunk, dk, |s|), dk, |chunk|)
    ensures forall j :: 0 <= j < |chunk| ==>
      ChunkOutput(e, chunk, dk, |s|, s[r], VNew(values, kCum, s[r], r), j) == OutputAt(e, chunk, s, dk, j)[r]
    ensures ChunkColumn(e, chunk, dk, |s|, s[r], VNew(values, kCum, s[r], r)) == StateAfter(e, chunk, s, dk)[r]
  {
    hide Solve, UtSystem, VBeta, DecayedKBeta, ChunkOutput, ChunkColumn, VNew, Dot;
    var dv, a := |s|, UtSystem(e, chunk, dk, |s|);
    SolveCorrect(a, VBeta(chunk, dk, dv), dv);
    SolveCorrect(a, DecayedKBeta(e, chunk, dk, dv), dk);
    VNewIsDeltas(e, chunk, dk, dv, values, kCum, s[r], r);
    forall j | 0 <= j < |chunk|
      ensures ChunkOutput(e, chunk, dk, dv, s[r], VNew(values, kCum, s[r], r), j) == OutputAt(e, chunk, s, dk, j)[r]
    {
      ChunkOutputCorrect(e, chunk, dk, dv, s[r], r, j);
    }
    ChunkColumnCorrect(e, chunk, dk, dv, s[r], r);
  }

  method ScanChunk(e: real -> real, chunk: seq<Token>, dk: nat, state: State, exporting: bool)
      returns (out: seq<Vec>, state': State)
    requires ExpLaw(e) && IsMat(state, dk) && Shaped(chunk, dk, |state|)
    ensures out == Outputs(e, chunk, state, dk) && state' == StateAfter(e, chunk, state, dk)
  {
    hide Solve, UtSystem, VBeta, DecayedKBeta, ChunkOutput, ChunkColumn, VNew, StateAfter, OutputAt;
    var dv := |state|;
    var values, kCum := SolveUt(UtSystem(e, chunk, dk, dv), VBeta(chunk, dk, dv), dv,
                                DecayedKBeta(e, chunk, dk, dv), dk, exporting);
    var vNew := seq(dv, r requires 0 <= r < dv && |values| == |kCum| && IsMat(values, dv) && IsMat(kCum, |state[r]|) =>
      VNew(values, kCum, state[r], r));
    forall r | 0 <= r < dv
      ensures vNew[r] == VNew(values, kCum, state[r], r)
      ensures ChunkColumn(e, chunk, dk, dv, state[r], vNew[r]) == StateAfter(e, chunk, state, dk)[r]
      ensures forall j :: 0 <= j < |chunk| ==>
        ChunkOutput(e, chunk, dk, dv, state[r], vNew[r], j) == OutputAt(e, chunk, state, dk, j)[r]
    {
      ChunkCorrect(e, chunk, dk, state, values, kCum, r);
    }
    out := seq(|chunk|, j requires 0 <= j < |chunk| =>
      seq(dv, r requires 0 <= r < dv => ChunkOutput(e, chunk, dk, dv, state[r], vNew[r], j)));
    state' := seq(dv, r requires 0 <= r < dv => ChunkColumn(e, chunk, dk, dv, state[r], vNew[r]));
    assert forall j :: 0 <= j < |chunk| ==> out[j] == OutputAt(e, chunk, state, dk, j);
  }

  /** Tokens missing from the last chunk. */
  function PadSize(n: nat, c: nat): nat
    requires c >= 1
  {
    (c - n % c) % c
  }

  function NumChunks(n: nat, c: nat): nat
    requires c >= 1
  {
    (n + PadSize(n, c)) / c
  }

  /** First position of chunk i. */
  function Offset(i: nat, c: nat): nat {
    if i == 0 then 0 else Offset(i - 1, c) + c
  }

  lemma {:induction false} OffsetIsProduct(i: nat, c: nat)
    ensures Offset(i, c) == i * c
  {
    if i > 0 {
      OffsetIsProduct(i - 1, c);
      assert (i - 1) * c + c == i * c;
    }
  }

  /** Padded to whole chunks, each chunk solved, scanned in order, padding dropped: the same outputs and
      final state as the token loop, for every length, chunk size, starting state and branch. */
  method ChunkRule(e: real -> real, ts: seq<Token>, dk: nat, dv: nat, chunkSize: nat, initial: Option<State>,
                   wantState: bool, exporting: bool)
      returns (out: seq<Vec>, final: Option<State>)
    requires ExpLaw(e) && Shaped(ts, dk, dv) && chunkSize >= 1
    requires initial.Some? ==> |initial.value| == dv && IsMat(initial.value, dk)
    ensures out == Outputs(e, ts, Start(initial, dk, dv), dk)
    ensures final == if wantState then Some(StateAfter(e, ts, Start(initial, dk, dv), dk)) else None
    ensures RunsFrom(e, ts, initial, out, StateAfter(e, ts, Start(initial, dk, dv), dk), dk, dv)
  {
    hide StateAfter, Outputs, ExpLaw, Offset, PadSize, RunsFrom;
    StartsRight(e, ts, initial, dk, dv);
    var padSize := PadSize(|ts|, chunkSize);
    var padding := Padding(padSize, dk, dv);
    var padded := ts + padding;
    var numChunks := NumChunks(|ts|, chunkSize);
    ghost var s0 := Start(initial, dk, dv);
    var state := Start(initial, dk, dv);
    EmptyRun(e, s0, dk);
    out := [];
    assert Offset(0, chunkSize) == 0 && Offset(numChunks, chunkSize) == |padded| by { WholeChunks(|ts|, chunkSize); }
    var pos := 0;
    for i := 0 to numChunks
      invariant pos == Offset(i, chunkSize) <= |padded|
      invariant |state| == dv && IsMat(state, dk) && Shaped(padded[..pos], dk, dv)
      invariant out == Outputs(e, padded[..pos], s0, dk)
      invariant state == StateAfter(e, padded[..pos], s0, dk)
    {
      ChunkFits(i, numChunks, chunkSize);
      var chunk := padded[pos..pos + chunkSize];
      var rows;
      rows, state := ScanChunk(e, chunk, dk, state, exporting);
      assert padded[..pos] + chunk == padded[..pos + chunkSize];
      RunAppend(e, padded[..pos], chunk, s0, dk);
      out := out + rows;
      pos := pos + chunkSize;
    }
    assert padded[..pos] == padded;
    RunAppend(e, ts, padding, s0, dk);
    ghost var end := StateAfter(e, ts, s0, dk);
    assert |end| == dv && IsMat(end, dk);
    PaddingKeepsState(e, padSize, end, dk);
    out := out[..|ts|];
    final := if wantState then Some(state) else None;
  }

  lemma EmptyRun(e: real -> real, s: State, dk: nat)
    requires IsMat(s, dk)
    ensures StateAfter(e, [], s, dk) == s && Outputs(e, [], s, dk) == []
  {
  }

  lemma WholeChunks(n: nat, c: nat)
    requires c >= 1
    ensures Offset(0, c) == 0
    ensures Offset(NumChunks(n, c), c) == n + PadSize(n, c)
  {
    hide Offset, NumChunks, PadSize;
    PadToMultiple(n, c);
    OffsetIsProduct(NumChunks(n, c), c);
    OffsetIsProduct(0, c);
  }

  lemma PadValue(n: nat, c: nat)
    requires c >= 1
    ensures PadSize(n, c) == if n % c == 0 then 0 else c - n % c
  {
    if n % c == 0 {
      NumberTheory.DivModUnique(c, c, 1, 0);
    } else {
      NumberTheory.DivModUnique(c - n % c, c, 0, c - n % c);
    }
  }

  lemma PadToMultiple(n: nat, c: nat)
    requires c >= 1
    ensures NumChunks(n, c) * c == n + PadSize(n, c)
  {
    PadValue(n, c);
    hide PadSize;
    var q := n / c;
    var total := n + PadSize(n, c);
    var k := if n % c == 0 then q else q + 1;
    assert total == k * c by { assert n == q * c + n % c; }
    MultipleDiv(k, c);
  }

  lemma MultipleDiv(q: int, c: nat)
    requires c >= 1
    ensures (q * c) / c == q
  {
    var x := q * c;
    var d, m := x / c, x % c;
    assert x == d * c + m;
    assert (q - d) * c == m;
    NumberTheory.SmallMultiple(q - d, c);
  }

  lemma {:induction false} ChunkFits(i: nat, n: nat, c: nat)
    requires i < n
    ensures Offset(i + 1, c) == Offset(i, c) + c <= Offset(n, c)
  {
    if i + 1 < n {
      ChunkFits(i, n - 1, c);
    }
  }

  // ---- Dispatch and state hand-over --------------------------------------------------------

  /** The layer's slot in the model cache; empty until the first piece has been processed. */
  class LayerCache {
    var recurrent: Option<State>

    constructor ()
      ensures recurrent == None
    {
      recurrent := None;
    }
  }

  ghost predicate CacheFits(cache: LayerCache?, dk: nat, dv: nat)
    reads cache
  {
    cache != null && cache.recurrent.Some? ==> |cache.recurrent.value| == dv && IsMat(cache.recurrent.value, dk)
  }

  function Incoming(cache: LayerCache?): Option<State>
    reads cache
  {
    if cache == null then None else cache.recurrent
  }

  /** One call of the layer: the token loop for a single cached token, the chunk form otherwise. */
  method Forward(e: real -> real, ts: seq<Token>, dk: nat, dv: nat, chunkSize: nat, cache: LayerCache?, exporting: bool)
      returns (out: seq<Vec>)
    requires ExpLaw(e) && Shaped(ts, dk, dv) && chunkSize >= 1 && CacheFits(cache, dk, dv)
    modifies cache
    ensures out == Outputs(e, ts, Start(old(Incoming(cache)), dk, dv), dk)
    ensures Incoming(cache)
         == if cache == null then None else Some(StateAfter(e, ts, Start(old(Incoming(cache)), dk, dv), dk))
    ensures CacheFits(cache, dk, dv)
    ensures RunsFrom(e, ts, old(Incoming(cache)), out,
                     StateAfter(e, ts, Start(old(Incoming(cache)), dk, dv), dk), dk, dv)
  {
    hide RunsFrom;
    var usePrecomputed := cache != null && cache.recurrent.Some?;
    var incoming := if usePrecomputed then cache.recurrent else None;
    var final;
    if usePrecomputed && |ts| == 1 {
      out, final := RecurrentRule(e, ts, dk, dv, incoming, cache != null);
    } else {
      out, final := ChunkRule(e, ts, dk, dv, chunkSize, incoming, cache != null, exporting);
    }
    if cache != null {
      cache.recurrent := final;
    }
  }

  ghost predicate AllShaped(pieces: seq<seq<Token>>, dk: nat, dv: nat) {
    forall i :: 0 <= i < |pieces| ==> Shaped(pieces[i], dk, dv)
  }

  lemma {:induction false} FlatShaped(pieces: seq<seq<Token>>, dk: nat, dv: nat)
    requires AllShaped(pieces, dk, dv)
    ensures Shaped(Flat(pieces), dk, dv)
  {
    if pieces == [] {
    } else {
      FlatShaped(pieces[..|pieces| - 1], dk, dv);
    }
  }

  /** How one call is run: its chunk size, and whether the graph is being exported. */
  datatype Setting = Setting(chunkSize: nat, exporting: bool)

  /** However a sequence is cut into calls, and whichever path, chunk size and branch each call takes, the
      layer gives the outputs and leaves the state of one token loop over the whole sequence. */
  method RunCalls(e: real -> real, pieces: seq<seq<Token>>, settings: seq<Setting>, dk: nat, dv: nat, cache: LayerCache)
    returns (out: seq<Vec>)
    requires ExpLaw(e) && AllShaped(pieces, dk, dv) && |settings| == |pieces| && CacheFits(cache, dk, dv)
    requires forall i :: 0 <= i < |settings| ==> settings[i].chunkSize >= 1
    modifies cache
    ensures Shaped(Flat(pieces), dk, dv) && CacheFits(cache, dk, dv)
    ensures out == Outputs(e, Flat(pieces), Start(old(cache.recurrent), dk, dv), dk)
    ensures cache.recurrent == if pieces == [] then old(cache.recurrent)
                               else Some(StateAfter(e, Flat(pieces), Start(old(cache.recurrent), dk, dv), dk))
    ensures RunsFrom(e, Flat(pieces), old(cache.recurrent), out,
                     StateAfter(e, Flat(pieces), Start(old(cache.recurrent), dk, dv), dk), dk, dv)
  {
    hide Outputs, StateAfter, IsMat, Shaped, RunsFrom;
    ghost var initial := Start(cache.recurrent, dk, dv);
    FlatShaped(pieces, dk, dv);
    StartsRight(e, Flat(pieces), cache.recurrent, dk, dv);
    EmptyRun(e, initial, dk);
    FlatShaped(pieces[..0], dk, dv);
    out := [];
    for i := 0 to |pieces|
      invariant CacheFits(cache, dk, dv) && Shaped(Flat(pieces[..i]), dk, dv)
      invariant out == Outputs(e, Flat(pieces[..i]), initial, dk)
      invariant Start(cache.recurrent, dk, dv) == StateAfter(e, Flat(pieces[..i]), initial, dk)
      invariant if i == 0 then cache.recurrent == old(cache.recurrent) else cache.recurrent.Some?
    {
      assert pieces[..i + 1][..i] == pieces[..i];
      FlatShaped(pieces[..i + 1], dk, dv);
      RunAppend(e, Flat(pieces[..i]), pieces[i], initial, dk);
      var y := Forward(e, pieces[i], dk, dv, settings[i].chunkSize, cache, settings[i].exporting);
      out := out + y;
    }
    assert pieces[..|pieces|] == pieces;
  }
}

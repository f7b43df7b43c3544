/** Dot products and unit lower-triangular systems over the reals, as far as the gated delta rule
    needs them. A matrix is the sequence of its rows. */
module LinearAlgebra {

  type Vec = seq<real>
  type Mat = seq<Vec>

  /** Multiplication under a name: proofs that only substitute equals for equals keep it closed. */
  function Times(x: real, y: real): real { x * y }

  predicate IsMat(m: Mat, cols: nat) {
    forall i :: 0 <= i < |m| ==> |m[i]| == cols
  }

  function Scale(a: real, x: Vec): (v: Vec)
    ensures |v| == |x|
  {
    seq(|x|, i requires 0 <= i < |x| => Times(a, x[i]))
  }

  /** a * x + b * y */
  function Mix(a: real, x: Vec, b: real, y: Vec): (v: Vec)
    requires |x| == |y|
    ensures |v| == |x|
  {
    seq(|x|, i requires 0 <= i < |x| => Times(a, x[i]) + Times(b, y[i]))
  }

  function Unit(n: nat, p: nat): (v: Vec)
    requires p < n
    ensures |v| == n
  {
    seq(n, i => if i == p then 1.0 else 0.0)
  }

  function Zeros(n: nat): (v: Vec)
    ensures |v| == n
  {
    seq(n, i => 0.0)
  }

  function Dot(x: Vec, y: Vec): real
    requires |x| == |y|
  {
    if |x| == 0 then 0.0
    else Dot(x[..|x| - 1], y[..|x| - 1]) + Times(x[|x| - 1], y[|x| - 1])
  }

  /** Entry p of the combination of the first |c| rows of m with coefficients c. */
  function CombAt(c: Vec, m: Mat, p: nat): real
    requires |c| <= |m| && forall j :: 0 <= j < |c| ==> p < |m[j]|
  {
    if |c| == 0 then 0.0
    else CombAt(c[..|c| - 1], m, p) + Times(c[|c| - 1], m[|c| - 1][p])
  }

  function Comb(c: Vec, m: Mat, n: nat): (v: Vec)
    requires |c| <= |m| && IsMat(m, n)
    ensures |v| == n
  {
    seq(n, p requires 0 <= p < n => CombAt(c, m, p))
  }

  /** m @ s */
  function Reads(m: Mat, s: Vec): (v: Vec)
    requires IsMat(m, |s|)
    ensures |v| == |m|
  {
    seq(|m|, i requires 0 <= i < |m| => Dot(m[i], s))
  }

  function Identity(n: nat): (m: Mat)
    ensures |m| == n && IsMat(m, n)
  {
    seq(n, i requires 0 <= i < n => Unit(n, i))
  }

  // Slices and distribution, kept apart from the inductions that use them.

  lemma MixPrefix(a: real, x: Vec, b: real, y: Vec, l: nat)
    requires l <= |x| == |y|
    ensures Mix(a, x, b, y)[..l] == Mix(a, x[..l], b, y[..l])
  {
    forall i | 0 <= i < l ensures Mix(a, x, b, y)[i] == Mix(a, x[..l], b, y[..l])[i] {
      assert x[..l][i] == x[i] && y[..l][i] == y[i];
    }
  }

  lemma ScalePrefix(a: real, x: Vec, l: nat)
    requires l <= |x|
    ensures Scale(a, x)[..l] == Scale(a, x[..l])
  {
    forall i | 0 <= i < l ensures Scale(a, x)[i] == Scale(a, x[..l])[i] {
      assert x[..l][i] == x[i];
    }
  }

  lemma Distribute(a: real, dx: real, b: real, dy: real, s: real, x: real, y: real)
    ensures (Times(a, dx) + Times(b, dy)) + Times(s, Times(a, x) + Times(b, y))
         == Times(a, dx + Times(s, x)) + Times(b, dy + Times(s, y))
  {
  }

  lemma {:induction false} DotMix(s: Vec, a: real, x: Vec, b: real, y: Vec)
    requires |x| == |y| == |s|
    ensures Dot(s, Mix(a, x, b, y)) == Times(a, Dot(s, x)) + Times(b, Dot(s, y))
  {
    if |s| > 0 {
      var l := |s| - 1;
      DotMix(s[..l], a, x[..l], b, y[..l]);
      MixPrefix(a, x, b, y, l);
      Distribute(a, Dot(s[..l], x[..l]), b, Dot(s[..l], y[..l]), s[l], x[l], y[l]);
    }
  }

  lemma {:induction false} DotComm(x: Vec, y: Vec)
    requires |x| == |y|
    ensures Dot(x, y) == Dot(y, x)
  {
    if |x| > 0 {
      DotComm(x[..|x| - 1], y[..|x| - 1]);
    }
  }

  lemma {:induction false} DotScale(a: real, x: Vec, y: Vec)
    requires |x| == |y|
    ensures Dot(Scale(a, x), y) == Times(a, Dot(x, y))
  {
    if |x| > 0 {
      var l := |x| - 1;
      DotScale(a, x[..l], y[..l]);
      ScalePrefix(a, x, l);
      Distribute(a, Dot(x[..l], y[..l]), 0.0, 0.0, y[l], x[l], 0.0);
    }
  }

  lemma {:induction false} DotZeroTail(x: Vec, z: nat, y: Vec)
    requires |x| + z == |y|
    ensures Dot(x + Zeros(z), y) == Dot(x, y[..|x|])
  {
    if z > 0 {
      DotZeroTail(x, z - 1, y[..|y| - 1]);
      assert (x + Zeros(z))[..|y| - 1] == x + Zeros(z - 1);
      assert y[..|y| - 1][..|x|] == y[..|x|];
    } else {
      assert x + Zeros(0) == x && y[..|x|] == y;
    }
  }

  lemma {:induction false} DotUnit(n: nat, p: nat, y: Vec)
    requires p < n == |y|
    ensures Dot(Unit(n, p), y) == y[p]
  {
    var l := n - 1;
    if p < l {
      DotUnit(l, p, y[..l]);
      assert Unit(n, p)[..l] == Unit(l, p);
    } else {
      assert Unit(n, p)[..l] == [] + Zeros(l);
      DotZeroTail([], l, y[..l]);
    }
  }

  lemma CombLast(c: Vec, m: Mat, n: nat)
    requires 0 < |c| <= |m| && IsMat(m, n)
    ensures Comb(c, m, n) == Mix(1.0, Comb(c[..|c| - 1], m, n), c[|c| - 1], m[|c| - 1])
  {
    forall p | 0 <= p < n
      ensures Comb(c, m, n)[p] == Mix(1.0, Comb(c[..|c| - 1], m, n), c[|c| - 1], m[|c| - 1])[p]
    {
      assert CombAt(c, m, p) == CombAt(c[..|c| - 1], m, p) + Times(c[|c| - 1], m[|c| - 1][p]);
    }
  }

  /** (c @ m) . s == c . (m @ s) */
  lemma {:induction false} DotComb(c: Vec, m: Mat, s: Vec)
    requires |c| <= |m| && IsMat(m, |s|)
    ensures Dot(Comb(c, m, |s|), s) == Dot(c, Reads(m, s)[..|c|])
  {
    var n := |s|;
    if |c| > 0 {
      var l := |c| - 1;
      DotComb(c[..l], m, s);
      CombLast(c, m, n);
      DotComm(Comb(c, m, n), s);
      DotMix(s, 1.0, Comb(c[..l], m, n), c[l], m[l]);
      DotComm(Comb(c[..l], m, n), s);
      DotComm(m[l], s);
      assert Reads(m, s)[..|c|][..l] == Reads(m, s)[..l];
    } else {
      assert Comb(c, m, n) == [] + Zeros(n);
      DotZeroTail([], n, s);
    }
  }

  // ---- Unit lower-triangular systems -------------------------------------------------------

  predicate IsSquare(a: Mat) {
    IsMat(a, |a|)
  }

  /** x solves (I + strictly lower part of a) x = b. */
  ghost predicate Solves(a: Mat, x: Vec, b: Vec)
    requires IsSquare(a)
  {
    |x| == |b| == |a| && forall i :: 0 <= i < |a| ==> x[i] == b[i] - Dot(a[i][..i], x[..i])
  }

  /** Every column of x solves the system with the same column of d. */
  ghost predicate SolvesMat(a: Mat, x: Mat, d: Mat, n: nat)
    requires IsSquare(a)
  {
    |x| == |d| == |a| && IsMat(x, n) && IsMat(d, n) &&
    forall i, p :: 0 <= i < |a| && 0 <= p < n ==> x[i][p] == d[i][p] - CombAt(a[i][..i], x, p)
  }

  /** A unit lower-triangular system has at most one solution. */
  lemma {:induction false} SolutionUnique(a: Mat, x: Vec, y: Vec, b: Vec, n: nat)
    requires IsSquare(a) && Solves(a, x, b) && Solves(a, y, b) && n <= |a|
    ensures x[..n] == y[..n]
  {
    if n > 0 {
      SolutionUnique(a, x, y, b, n - 1);
      assert x[n - 1] == y[n - 1];
    }
  }

  lemma SolutionsEqual(a: Mat, x: Vec, y: Vec, b: Vec)
    requires IsSquare(a) && Solves(a, x, b) && Solves(a, y, b)
    ensures x == y
  {
    SolutionUnique(a, x, y, b, |a|);
    assert x[..|a|] == x && y[..|a|] == y;
  }

  /** Reading a matrix solution along s solves the system whose right-hand side is read along s. */
  lemma SolvedRead(a: Mat, x: Mat, d: Mat, s: Vec)
    requires IsSquare(a) && SolvesMat(a, x, d, |s|)
    ensures Solves(a, Reads(x, s), Reads(d, s))
  {
    forall i | 0 <= i < |a|
      ensures Reads(x, s)[i] == Reads(d, s)[i] - Dot(a[i][..i], Reads(x, s)[..i])
    {
      SolvedReadAt(a[i][..i], x, x[i], d[i], s);
    }
  }

  lemma UnitTimes(x: real, y: real)
    ensures Times(1.0, x) + Times(-1.0, y) == x - y
  {
  }

  lemma MixDifference(z: Vec, x: Vec, y: Vec)
    requires |z| == |x| == |y| && forall p :: 0 <= p < |x| ==> z[p] == x[p] - y[p]
    ensures z == Mix(1.0, x, -1.0, y)
  {
    forall p | 0 <= p < |x| ensures z[p] == Mix(1.0, x, -1.0, y)[p] {
      UnitTimes(x[p], y[p]);
    }
  }

  lemma SolvedReadAt(c: Vec, x: Mat, xi: Vec, di: Vec, s: Vec)
    requires |c| <= |x| && IsMat(x, |s|) && |xi| == |di| == |s|
    requires forall p :: 0 <= p < |s| ==> xi[p] == di[p] - CombAt(c, x, p)
    ensures Dot(xi, s) == Dot(di, s) - Dot(c, Reads(x, s)[..|c|])
  {
    hide Dot, CombAt;
    var v := Comb(c, x, |s|);
    MixDifference(xi, di, v);
    hide Mix, Comb, Reads, Times;
    assert Times(1.0, Dot(s, di)) + Times(-1.0, Dot(s, v)) == Dot(s, di) - Dot(s, v) by {
      UnitTimes(Dot(s, di), Dot(s, v));
    }
    DotComm(xi, s);
    DotMix(s, 1.0, di, -1.0, v);
    DotComm(di, s);
    DotComm(v, s);
    DotComb(c, x, s);
  }

  /** The direct solver: row i once rows 0..i are known. */
  function Solve(a: Mat, d: Mat, n: nat, rows: nat): (x: Mat)
    requires IsSquare(a) && |d| == |a| && IsMat(d, n) && rows <= |a|
    ensures |x| == rows && IsMat(x, n)
  {
    if rows == 0 then []
    else
      var x := Solve(a, d, n, rows - 1);
      x + [Mix(1.0, d[rows - 1], -1.0, Comb(a[rows - 1][..rows - 1], x, n))]
  }

  lemma {:induction false} CombAtPrefix(c: Vec, m: Mat, m': Mat, p: nat)
    requires |c| <= |m| && |c| <= |m'|
    requires forall j :: 0 <= j < |c| ==> p < |m[j]| && m'[j] == m[j]
    ensures CombAt(c, m, p) == CombAt(c, m', p)
  {
    if |c| > 0 {
      CombAtPrefix(c[..|c| - 1], m, m', p);
    }
  }

  lemma {:induction false} SolvePrefix(a: Mat, d: Mat, n: nat, rows: nat, more: nat)
    requires IsSquare(a) && |d| == |a| && IsMat(d, n) && rows <= more <= |a|
    ensures Solve(a, d, n, more)[..rows] == Solve(a, d, n, rows)
  {
    if rows < more {
      SolvePrefix(a, d, n, rows, more - 1);
      assert Solve(a, d, n, more)[..rows] == Solve(a, d, n, more - 1)[..rows];
    }
  }

  /** The solver's answer is a solution; with SolutionUnique it is the solution. */
  lemma SolveCorrect(a: Mat, d: Mat, n: nat)
    requires IsSquare(a) && |d| == |a| && IsMat(d, n)
    ensures SolvesMat(a, Solve(a, d, n, |a|), d, n)
  {
    forall i | 0 <= i < |a|
      ensures var x := Solve(a, d, n, |a|); forall p :: 0 <= p < n ==> x[i][p] == d[i][p] - CombAt(a[i][..i], x, p)
    {
      SolveRow(a, d, n, i);
    }
  }

  lemma SolveRow(a: Mat, d: Mat, n: nat, i: nat)
    requires IsSquare(a) && |d| == |a| && IsMat(d, n) && i < |a|
    ensures var x := Solve(a, d, n, |a|); forall p :: 0 <= p < n ==> x[i][p] == d[i][p] - CombAt(a[i][..i], x, p)
  {
    var x, y, c := Solve(a, d, n, |a|), Solve(a, d, n, i), a[i][..i];
    SolvePrefix(a, d, n, i, |a|);
    SolvePrefix(a, d, n, i + 1, |a|);
    assert x[i] == x[..i + 1][i] == Mix(1.0, d[i], -1.0, Comb(c, y, n));
    forall p | 0 <= p < n
      ensures x[i][p] == d[i][p] - CombAt(c, x, p)
    {
      assert forall j :: 0 <= j < i ==> x[j] == x[..i][j] == y[j];
      CombAtPrefix(c, y, x, p);
    }
  }
}

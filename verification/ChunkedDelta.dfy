/** One chunk of the gated delta rule in UT-transform form, and the algebra that makes it equal to the
    recurrence over the chunk. */
module ChunkedDelta {
  import opened LinearAlgebra
  import opened GatedDelta

  // ---- One chunk ---------------------------------------------------------------------------

  /** Sum of the log-decays. */
  function LogDecay(ts: seq<Token>): real {
    if ts == [] then 0.0 else LogDecay(ts[..|ts| - 1]) + ts[|ts| - 1].g
  }

  /** cum_decay at position i. */
  function Cum(ts: seq<Token>, i: nat): real
    requires i < |ts|
  {
    LogDecay(ts[..i + 1])
  }

  /** Decay between positions j and i; masked above the diagonal. */
  function PairDecay(e: real -> real, ts: seq<Token>, i: nat, j: nat): real
    requires i < |ts| && j < |ts|
  {
    if j > i then 0.0 else e(Cum(ts, i) - Cum(ts, j))
  }

  function UtRow(e: real -> real, ts: seq<Token>, dk: nat, dv: nat, i: nat): (row: Vec)
    requires Shaped(ts, dk, dv) && i < |ts|
    ensures |row| == |ts|
  {
    seq(|ts|, j requires 0 <= j < |ts| => Times(Dot(Scale(ts[i].beta, ts[i].k), ts[j].k), PairDecay(e, ts, i, j)))
  }

  function UtSystem(e: real -> real, ts: seq<Token>, dk: nat, dv: nat): (a: Mat)
    requires Shaped(ts, dk, dv)
    ensures |a| == |ts| && IsSquare(a)
    ensures forall i :: 0 <= i < |ts| ==> a[i] == UtRow(e, ts, dk, dv, i)
  {
    seq(|ts|, i requires 0 <= i < |ts| => UtRow(e, ts, dk, dv, i))
  }

  function AttnRow(e: real -> real, ts: seq<Token>, dk: nat, dv: nat, i: nat): (row: Vec)
    requires Shaped(ts, dk, dv) && i < |ts|
    ensures |row| == |ts|
  {
    seq(|ts|, j requires 0 <= j < |ts| => Times(Dot(ts[i].q, ts[j].k), PairDecay(e, ts, i, j)))
  }

  function VBeta(ts: seq<Token>, dk: nat, dv: nat): (m: Mat)
    requires Shaped(ts, dk, dv)
    ensures |m| == |ts| && IsMat(m, dv)
  {
    seq(|ts|, i requires 0 <= i < |ts| => Scale(ts[i].beta, ts[i].v))
  }

  function DecayedKBetaRow(e: real -> real, ts: seq<Token>, dk: nat, dv: nat, i: nat): (row: Vec)
    requires Shaped(ts, dk, dv) && i < |ts|
    ensures |row| == dk
  {
    Scale(e(Cum(ts, i)), Scale(ts[i].beta, ts[i].k))
  }

  function DecayedKBeta(e: real -> real, ts: seq<Token>, dk: nat, dv: nat): (m: Mat)
    requires Shaped(ts, dk, dv)
    ensures |m| == |ts| && IsMat(m, dk)
  {
    seq(|ts|, i requires 0 <= i < |ts| => DecayedKBetaRow(e, ts, dk, dv, i))
  }

  /** v_new of column r: the new values less what the incoming state already predicts. */
  function VNew(values: Mat, kCum: Mat, s: Vec, r: nat): (v: Vec)
    requires |values| == |kCum| && IsMat(kCum, |s|) && forall i :: 0 <= i < |values| ==> r < |values[i]|
    ensures |v| == |values|
  {
    seq(|values|, i requires 0 <= i < |values| => values[i][r] - Dot(kCum[i], s))
  }

  function ChunkOutput(e: real -> real, ts: seq<Token>, dk: nat, dv: nat, s: Vec, vNew: Vec, i: nat): real
    requires Shaped(ts, dk, dv) && |s| == dk && |vNew| == |ts| && i < |ts|
  {
    Dot(Scale(e(Cum(ts, i)), ts[i].q), s) + Dot(AttnRow(e, ts, dk, dv, i), vNew)
  }

  /** Row p of the transposed keys, each decayed to the end of the chunk. */
  function KeyRow(e: real -> real, ts: seq<Token>, dk: nat, dv: nat, p: nat): (row: Vec)
    requires Shaped(ts, dk, dv) && p < dk
    ensures |row| == |ts|
  {
    seq(|ts|, j requires 0 <= j < |ts| => Times(ts[j].k[p], e(LogDecay(ts) - Cum(ts, j))))
  }

  function ChunkColumn(e: real -> real, ts: seq<Token>, dk: nat, dv: nat, s: Vec, vNew: Vec): (s': Vec)
    requires Shaped(ts, dk, dv) && |s| == dk && |vNew| == |ts|
    ensures |s'| == dk
  {
    seq(dk, p requires 0 <= p < dk => Times(s[p], e(LogDecay(ts))) + Dot(KeyRow(e, ts, dk, dv, p), vNew))
  }

  // ---- Reading the recurrent state ---------------------------------------------------------

  ghost function Deltas(e: real -> real, ts: seq<Token>, dk: nat, dv: nat, s: Vec, r: nat): (d: Vec)
    requires Shaped(ts, dk, dv) && |s| == dk && r < dv
    ensures |d| == |ts|
  {
    seq(|ts|, j requires 0 <= j < |ts| => Delta(e, ColumnAfter(e, ts[..j], dk, dv, s, r), ts[j], r))
  }

  /** How much of token j's correction a reader x still sees after ts. */
  ghost function Weights(e: real -> real, ts: seq<Token>, dk: nat, dv: nat, x: Vec): (w: Vec)
    requires Shaped(ts, dk, dv) && |x| == dk
    ensures |w| == |ts|
  {
    seq(|ts|, j requires 0 <= j < |ts| => Times(Dot(x, ts[j].k), e(LogDecay(ts) - Cum(ts, j))))
  }

  lemma DeltasPrefix(e: real -> real, ts: seq<Token>, dk: nat, dv: nat, s: Vec, r: nat, n: nat)
    requires Shaped(ts, dk, dv) && |s| == dk && r < dv && n <= |ts|
    ensures Shaped(ts[..n], dk, dv)
    ensures Deltas(e, ts, dk, dv, s, r)[..n] == Deltas(e, ts[..n], dk, dv, s, r)
  {
    forall j | 0 <= j < n
      ensures Deltas(e, ts, dk, dv, s, r)[j] == Deltas(e, ts[..n], dk, dv, s, r)[j]
    {
      assert ts[..n][..j] == ts[..j];
    }
  }

  lemma ExpStep(e: real -> real, x: real, g: real, y: real)
    requires ExpLaw(e)
    ensures e((x + g) - y) == Times(e(g), e(x - y))
  {
    assert Plus(g, x - y) == (x + g) - y;
  }

  lemma DecayLast(e: real -> real, ts: seq<Token>)
    requires ExpLaw(e) && |ts| > 0
    ensures e(LogDecay(ts)) == Times(e(ts[|ts| - 1].g), e(LogDecay(ts[..|ts| - 1])))
  {
    var before, g := LogDecay(ts[..|ts| - 1]), ts[|ts| - 1].g;
    assert LogDecay(ts) == before + g;
    hide *;
    ExpStep(e, before, g, 0.0);
    assert (before + g) - 0.0 == before + g && before - 0.0 == before;
  }

  lemma WeightDecays(e: real -> real, ts: seq<Token>, dk: nat, dv: nat, x: Vec, j: nat)
    requires ExpLaw(e) && Shaped(ts, dk, dv) && |x| == dk && j < |ts| - 1
    ensures Shaped(ts[..|ts| - 1], dk, dv)
    ensures Weights(e, ts, dk, dv, x)[j] == Times(e(ts[|ts| - 1].g), Weights(e, ts[..|ts| - 1], dk, dv, x)[j])
  {
    var n := |ts| - 1;
    hide *;
    ShapedPrefix(ts, dk, dv, n);
    LastDecay(ts, j);
    TokenShape(ts, dk, dv, j);
    WeightAt(e, ts, dk, dv, x, j);
    WeightAt(e, ts[..n], dk, dv, x, j);
    var whole, now, g := LogDecay(ts[..n]), Cum(ts, j), ts[n].g;
    assert Weights(e, ts, dk, dv, x)[j] == Times(Dot(x, ts[j].k), e((whole + g) - now));
    assert Weights(e, ts[..n], dk, dv, x)[j] == Times(Dot(x, ts[j].k), e(whole - now));
    ExpStep(e, whole, g, now);
    Commute(Dot(x, ts[j].k), e(g), e(whole - now));
  }

  lemma WeightAt(e: real -> real, ts: seq<Token>, dk: nat, dv: nat, x: Vec, j: nat)
    requires Shaped(ts, dk, dv) && |x| == dk && j < |ts|
    ensures Weights(e, ts, dk, dv, x)[j] == Times(Dot(x, ts[j].k), e(LogDecay(ts) - Cum(ts, j)))
  {
    hide Dot, Times, LogDecay, Cum;
  }

  lemma TokenShape(ts: seq<Token>, dk: nat, dv: nat, j: nat)
    requires Shaped(ts, dk, dv) && j < |ts|
    ensures |ts[j].q| == |ts[j].k| == dk && |ts[j].v| == dv
  {
  }

  lemma LastDecay(ts: seq<Token>, j: nat)
    requires j < |ts| - 1
    ensures LogDecay(ts) == LogDecay(ts[..|ts| - 1]) + ts[|ts| - 1].g && Cum(ts[..|ts| - 1], j) == Cum(ts, j)
  {
    assert ts[..|ts| - 1][..j + 1] == ts[..j + 1];
  }

  lemma Commute(d: real, a: real, f: real)
    ensures Times(d, Times(a, f)) == Times(a, Times(d, f))
  {
  }

  /** One more token decays every weight and adds its own. */
  lemma WeightsLast(e: real -> real, ts: seq<Token>, dk: nat, dv: nat, x: Vec)
    requires ExpLaw(e) && Shaped(ts, dk, dv) && |x| == dk && |ts| > 0
    ensures Shaped(ts[..|ts| - 1], dk, dv)
    ensures Weights(e, ts, dk, dv, x)[..|ts| - 1] == Scale(e(ts[|ts| - 1].g), Weights(e, ts[..|ts| - 1], dk, dv, x))
    ensures Weights(e, ts, dk, dv, x)[|ts| - 1] == Dot(x, ts[|ts| - 1].k)
  {
    hide Dot;
    var n := |ts| - 1;
    forall j | 0 <= j < n
      ensures Weights(e, ts, dk, dv, x)[j] == Scale(e(ts[n].g), Weights(e, ts[..n], dk, dv, x))[j]
    {
      WeightDecays(e, ts, dk, dv, x, j);
    }
    assert ts[..n + 1] == ts;
    assert LogDecay(ts) - Cum(ts, n) == 0.0;
    assert Times(Dot(x, ts[n].k), 1.0) == Dot(x, ts[n].k);
  }

  /** What any reader sees of a column: the decayed start, plus every correction, decayed. */
  lemma {:induction false} Readout(e: real -> real, ts: seq<Token>, dk: nat, dv: nat, s: Vec, r: nat, x: Vec)
    requires ExpLaw(e) && Shaped(ts, dk, dv) && |s| == |x| == dk && r < dv
    ensures Dot(x, ColumnAfter(e, ts, dk, dv, s, r))
         == Times(e(LogDecay(ts)), Dot(x, s)) + Dot(Weights(e, ts, dk, dv, x), Deltas(e, ts, dk, dv, s, r))
    decreases |ts|, 1
  {
    if ts == [] {
      assert Dot(Weights(e, ts, dk, dv, x), Deltas(e, ts, dk, dv, s, r)) == 0.0;
      hide Dot, Weights, Deltas;
      assert Times(1.0, Dot(x, s)) == Dot(x, s);
    } else {
      hide *;
      ReadoutStep(e, ts, dk, dv, s, r, x);
    }
  }

  lemma ShapedPrefix(ts: seq<Token>, dk: nat, dv: nat, n: nat)
    requires Shaped(ts, dk, dv) && n <= |ts|
    ensures Shaped(ts[..n], dk, dv)
  {
  }

  lemma {:induction false} ReadoutStep(e: real -> real, ts: seq<Token>, dk: nat, dv: nat, s: Vec, r: nat, x: Vec)
    requires ExpLaw(e) && Shaped(ts, dk, dv) && |s| == |x| == dk && r < dv && |ts| > 0
    ensures Dot(x, ColumnAfter(e, ts, dk, dv, s, r))
         == Times(e(LogDecay(ts)), Dot(x, s)) + Dot(Weights(e, ts, dk, dv, x), Deltas(e, ts, dk, dv, s, r))
    decreases |ts|, 0
  {
    hide Mix, Scale, Weights, Delta, Deltas, Dot, Times, ExpLaw, Shaped, ColumnAfter, LogDecay;
    var n := |ts| - 1;
    var t, ts' := ts[n], ts[..n];
    ShapedPrefix(ts, dk, dv, n);
    Readout(e, ts', dk, dv, s, r, x);
    assert |t.k| == dk by { ColumnLast(e, ts, dk, dv, s, r); }
    var a, s', d := e(t.g), ColumnAfter(e, ts', dk, dv, s, r), Deltas(e, ts, dk, dv, s, r);
    var w', d' := Weights(e, ts', dk, dv, x), Deltas(e, ts', dk, dv, s, r);
    calc {
      Dot(x, ColumnAfter(e, ts, dk, dv, s, r));
      { ColumnLast(e, ts, dk, dv, s, r); }
      Dot(x, Mix(a, s', d[n], t.k));
      { DotMix(x, a, s', d[n], t.k); }
      Times(a, Dot(x, s')) + Times(d[n], Dot(x, t.k));
      Times(a, Times(e(LogDecay(ts')), Dot(x, s)) + Dot(w', d')) + Times(d[n], Dot(x, t.k));
      { Collect(a, e(LogDecay(ts')), Dot(x, s), Dot(w', d'), d[n], Dot(x, t.k)); }
      Times(Times(a, e(LogDecay(ts'))), Dot(x, s)) + (Times(a, Dot(w', d')) + Times(Dot(x, t.k), d[n]));
      { DecayLast(e, ts); CorrectionsStep(e, ts, dk, dv, s, r, x); }
      Times(e(LogDecay(ts)), Dot(x, s)) + Dot(Weights(e, ts, dk, dv, x), d);
    }
  }

  lemma ColumnLast(e: real -> real, ts: seq<Token>, dk: nat, dv: nat, s: Vec, r: nat)
    requires Shaped(ts, dk, dv) && |s| == dk && r < dv && |ts| > 0
    ensures Shaped(ts[..|ts| - 1], dk, dv) && |ts[|ts| - 1].k| == dk
    ensures ColumnAfter(e, ts, dk, dv, s, r)
         == Mix(e(ts[|ts| - 1].g), ColumnAfter(e, ts[..|ts| - 1], dk, dv, s, r),
                Deltas(e, ts, dk, dv, s, r)[|ts| - 1], ts[|ts| - 1].k)
  {
    hide Mix, Delta;
  }

  lemma CorrectionsStep(e: real -> real, ts: seq<Token>, dk: nat, dv: nat, s: Vec, r: nat, x: Vec)
    requires ExpLaw(e) && Shaped(ts, dk, dv) && |s| == |x| == dk && r < dv && |ts| > 0
    ensures Shaped(ts[..|ts| - 1], dk, dv)
    ensures Dot(Weights(e, ts, dk, dv, x), Deltas(e, ts, dk, dv, s, r))
         == Times(e(ts[|ts| - 1].g),
                  Dot(Weights(e, ts[..|ts| - 1], dk, dv, x), Deltas(e, ts[..|ts| - 1], dk, dv, s, r)))
            + Times(Dot(x, ts[|ts| - 1].k), Deltas(e, ts, dk, dv, s, r)[|ts| - 1])
  {
    hide Weights, Deltas, Scale, ExpLaw, Times;
    var n := |ts| - 1;
    var w, d := Weights(e, ts, dk, dv, x), Deltas(e, ts, dk, dv, s, r);
    WeightsLast(e, ts, dk, dv, x);
    DeltasPrefix(e, ts, dk, dv, s, r, n);
    assert Dot(w, d) == Dot(w[..n], d[..n]) + Times(w[n], d[n]);
    hide Dot;
    DotScale(e(ts[n].g), Weights(e, ts[..n], dk, dv, x), Deltas(e, ts[..n], dk, dv, s, r));
  }

  lemma Collect(a: real, f: real, y: real, z: real, d: real, k: real)
    ensures Times(a, Times(f, y) + z) + Times(d, k) == Times(Times(a, f), y) + (Times(a, z) + Times(k, d))
  {
  }

  // ---- The corrections solve the UT system -------------------------------------------------

  ghost function Rhs(e: real -> real, ts: seq<Token>, dk: nat, dv: nat, s: Vec, r: nat): (b: Vec)
    requires Shaped(ts, dk, dv) && |s| == dk && r < dv
    ensures |b| == |ts|
  {
    seq(|ts|, i requires 0 <= i < |ts| =>
      VBeta(ts, dk, dv)[i][r] - Dot(DecayedKBeta(e, ts, dk, dv)[i], s))
  }

  lemma UtEntry(e: real -> real, ts: seq<Token>, dk: nat, dv: nat, i: nat, j: nat)
    requires ExpLaw(e) && Shaped(ts, dk, dv) && j < i < |ts|
    ensures Shaped(ts[..i], dk, dv)
    ensures UtRow(e, ts, dk, dv, i)[j]
         == Times(Times(ts[i].beta, e(ts[i].g)), Weights(e, ts[..i], dk, dv, ts[i].k)[j])
  {
    hide *;
    var t, before, now := ts[i], LogDecay(ts[..i]), Cum(ts, j);
    ShapedPrefix(ts, dk, dv, i);
    TokenShape(ts, dk, dv, i);
    TokenShape(ts, dk, dv, j);
    UtRowAt(e, ts, dk, dv, i, j);
    WeightAt(e, ts[..i], dk, dv, t.k, j);
    assert UtRow(e, ts, dk, dv, i)[j] == Times(Dot(Scale(t.beta, t.k), ts[j].k), e((before + t.g) - now));
    assert Weights(e, ts[..i], dk, dv, t.k)[j] == Times(Dot(t.k, ts[j].k), e(before - now));
    ExpStep(e, before, t.g, now);
    DotScale(t.beta, t.k, ts[j].k);
    Regroup(t.beta, Dot(t.k, ts[j].k), e(t.g), e(before - now));
  }

  lemma UtRowAt(e: real -> real, ts: seq<Token>, dk: nat, dv: nat, i: nat, j: nat)
    requires Shaped(ts, dk, dv) && j < i < |ts|
    ensures UtRow(e, ts, dk, dv, i)[j]
         == Times(Dot(Scale(ts[i].beta, ts[i].k), ts[j].k), e((LogDecay(ts[..i]) + ts[i].g) - Cum(ts, j)))
    ensures Cum(ts[..i], j) == Cum(ts, j)
  {
    hide Dot, Scale, Times;
    assert ts[..i + 1][..i] == ts[..i] && ts[..i][..j + 1] == ts[..j + 1];
    assert Cum(ts, i) == LogDecay(ts[..i]) + ts[i].g;
  }

  lemma Regroup(b: real, d: real, a: real, f: real)
    ensures Times(Times(b, d), Times(a, f)) == Times(Times(b, a), Times(d, f))
  {
  }

  lemma UtRowIsWeights(e: real -> real, ts: seq<Token>, dk: nat, dv: nat, i: nat)
    requires ExpLaw(e) && Shaped(ts, dk, dv) && i < |ts|
    ensures Shaped(ts[..i], dk, dv)
    ensures UtRow(e, ts, dk, dv, i)[..i] == Scale(Times(ts[i].beta, e(ts[i].g)), Weights(e, ts[..i], dk, dv, ts[i].k))
  {
    hide UtRow, Weights;
    var b := Times(ts[i].beta, e(ts[i].g));
    forall j | 0 <= j < i
      ensures UtRow(e, ts, dk, dv, i)[j] == Scale(b, Weights(e, ts[..i], dk, dv, ts[i].k))[j]
    {
      UtEntry(e, ts, dk, dv, i, j);
    }
  }

  lemma DeltaEquation(e: real -> real, ts: seq<Token>, dk: nat, dv: nat, s: Vec, r: nat, i: nat)
    requires ExpLaw(e) && Shaped(ts, dk, dv) && |s| == dk && r < dv && i < |ts|
    ensures Deltas(e, ts, dk, dv, s, r)[i]
         == Rhs(e, ts, dk, dv, s, r)[i] - Dot(UtRow(e, ts, dk, dv, i)[..i], Deltas(e, ts, dk, dv, s, r)[..i])
  {
    hide Dot, Weights, UtRow, Times, ExpLaw, Scale, Rhs, ColumnAfter, Mix;
    var t, us := ts[i], ts[..i];
    DeltasPrefix(e, ts, dk, dv, s, r, i);
    UtRowIsWeights(e, ts, dk, dv, i);
    var si, a := ColumnAfter(e, us, dk, dv, s, r), e(t.g);
    var w, d := Weights(e, us, dk, dv, t.k), Deltas(e, us, dk, dv, s, r);
    var f := e(LogDecay(us));
    Readout(e, us, dk, dv, s, r, t.k);
    DotScale(a, si, t.k);
    DotComm(si, t.k);
    DotScale(Times(t.beta, a), w, d);
    assert e(Cum(ts, i)) == Times(a, f) by {
      assert ts[..i + 1][..i] == us;
      DecayLast(e, ts[..i + 1]);
    }
    RhsEntry(e, ts, dk, dv, s, r, i);
    assert d == Deltas(e, ts, dk, dv, s, r)[..i];
    assert Deltas(e, ts, dk, dv, s, r)[i] == Times(t.v[r] - Times(a, Times(f, Dot(t.k, s)) + Dot(w, d)), t.beta);
    hide Deltas;
    Expand(t.v[r], a, f, Dot(t.k, s), Dot(w, d), t.beta);
  }

  lemma RhsEntry(e: real -> real, ts: seq<Token>, dk: nat, dv: nat, s: Vec, r: nat, i: nat)
    requires Shaped(ts, dk, dv) && |s| == dk && r < dv && i < |ts|
    ensures Rhs(e, ts, dk, dv, s, r)[i]
         == Times(ts[i].beta, ts[i].v[r]) - Times(e(Cum(ts, i)), Times(ts[i].beta, Dot(ts[i].k, s)))
  {
    hide Dot;
    DotScale(e(Cum(ts, i)), Scale(ts[i].beta, ts[i].k), s);
    DotScale(ts[i].beta, ts[i].k, s);
  }

  lemma Expand(v: real, a: real, f: real, y: real, z: real, b: real)
    ensures Times(v - Times(a, Times(f, y) + z), b)
         == (Times(b, v) - Times(Times(a, f), Times(b, y))) - Times(Times(b, a), z)
  {
  }

  lemma DeltasSolve(e: real -> real, ts: seq<Token>, dk: nat, dv: nat, s: Vec, r: nat)
    requires ExpLaw(e) && Shaped(ts, dk, dv) && |s| == dk && r < dv
    ensures Solves(UtSystem(e, ts, dk, dv), Deltas(e, ts, dk, dv, s, r), Rhs(e, ts, dk, dv, s, r))
  {
    forall i | 0 <= i < |ts|
      ensures Deltas(e, ts, dk, dv, s, r)[i]
           == Rhs(e, ts, dk, dv, s, r)[i] - Dot(UtSystem(e, ts, dk, dv)[i][..i], Deltas(e, ts, dk, dv, s, r)[..i])
    {
      DeltaEquation(e, ts, dk, dv, s, r, i);
    }
  }

  lemma SolvesSub(a: Mat, x: Vec, b: Vec, y: Vec, c: Vec)
    requires IsSquare(a) && Solves(a, x, b) && Solves(a, y, c)
    ensures Solves(a, Mix(1.0, x, -1.0, y), Mix(1.0, b, -1.0, c))
  {
    var z := Mix(1.0, x, -1.0, y);
    forall i | 0 <= i < |a|
      ensures z[i] == Mix(1.0, b, -1.0, c)[i] - Dot(a[i][..i], z[..i])
    {
      MixPrefix(1.0, x, -1.0, y, i);
      DotMix(a[i][..i], 1.0, x[..i], -1.0, y[..i]);
    }
  }

  /** The UT transform: v_new is exactly the sequence of corrections the recurrence would write. */
  lemma VNewIsDeltas(e: real -> real, ts: seq<Token>, dk: nat, dv: nat, values: Mat, kCum: Mat, s: Vec, r: nat)
    requires ExpLaw(e) && Shaped(ts, dk, dv) && |s| == dk && r < dv
    requires SolvesMat(UtSystem(e, ts, dk, dv), values, VBeta(ts, dk, dv), dv)
    requires SolvesMat(UtSystem(e, ts, dk, dv), kCum, DecayedKBeta(e, ts, dk, dv), dk)
    ensures VNew(values, kCum, s, r) == Deltas(e, ts, dk, dv, s, r)
  {
    hide Dot, Solves, Weights, UtSystem, UtRow, ExpLaw, Scale, ColumnAfter, Deltas, Rhs, VNew, Mix, Unit;
    var a, u := UtSystem(e, ts, dk, dv), Unit(dv, r);
    var vb, kb := VBeta(ts, dk, dv), DecayedKBeta(e, ts, dk, dv);
    SolvedRead(a, values, vb, u);
    SolvedRead(a, kCum, kb, s);
    SolvesSub(a, Reads(values, u), Reads(vb, u), Reads(kCum, s), Reads(kb, s));
    VNewAsMix(values, kCum, s, dv, r);
    VNewAsMix(vb, kb, s, dv, r);
    assert Rhs(e, ts, dk, dv, s, r) == VNew(vb, kb, s, r) by { RhsAsVNew(e, ts, dk, dv, s, r); }
    DeltasSolve(e, ts, dk, dv, s, r);
    SolutionsEqual(a, VNew(values, kCum, s, r), Deltas(e, ts, dk, dv, s, r), Rhs(e, ts, dk, dv, s, r));
  }

  lemma RhsAsVNew(e: real -> real, ts: seq<Token>, dk: nat, dv: nat, s: Vec, r: nat)
    requires Shaped(ts, dk, dv) && |s| == dk && r < dv
    ensures Rhs(e, ts, dk, dv, s, r) == VNew(VBeta(ts, dk, dv), DecayedKBeta(e, ts, dk, dv), s, r)
  {
  }

  lemma VNewAsMix(values: Mat, kCum: Mat, s: Vec, dv: nat, r: nat)
    requires |values| == |kCum| && IsMat(values, dv) && IsMat(kCum, |s|) && r < dv
    ensures VNew(values, kCum, s, r) == Mix(1.0, Reads(values, Unit(dv, r)), -1.0, Reads(kCum, s))
  {
    hide Dot, Unit;
    forall i | 0 <= i < |values|
      ensures VNew(values, kCum, s, r)[i] == Mix(1.0, Reads(values, Unit(dv, r)), -1.0, Reads(kCum, s))[i]
    {
      DotComm(values[i], Unit(dv, r));
      DotUnit(dv, r, values[i]);
    }
  }

  // ---- The chunk's outputs and final state -------------------------------------------------

  lemma AttnRowIsWeights(e: real -> real, ts: seq<Token>, dk: nat, dv: nat, i: nat)
    requires Shaped(ts, dk, dv) && i < |ts|
    ensures Shaped(ts[..i + 1], dk, dv)
    ensures AttnRow(e, ts, dk, dv, i) == Weights(e, ts[..i + 1], dk, dv, ts[i].q) + Zeros(|ts| - (i + 1))
  {
    hide Dot;
    var us, z := ts[..i + 1], |ts| - (i + 1);
    var row, w := AttnRow(e, ts, dk, dv, i), Weights(e, us, dk, dv, ts[i].q);
    forall j | 0 <= j < |ts| ensures row[j] == (w + Zeros(z))[j] {
      if j <= i {
        assert us[..j + 1] == ts[..j + 1];
      }
    }
  }

  lemma ChunkOutputCorrect(e: real -> real, ts: seq<Token>, dk: nat, dv: nat, s: Vec, r: nat, i: nat)
    requires ExpLaw(e) && Shaped(ts, dk, dv) && |s| == dk && r < dv && i < |ts|
    ensures ChunkOutput(e, ts, dk, dv, s, Deltas(e, ts, dk, dv, s, r), i)
         == Dot(ts[i].q, ColumnAfter(e, ts[..i + 1], dk, dv, s, r))
  {
    hide Dot, Weights, AttnRow, Zeros, Deltas, Scale, ColumnAfter, Times;
    var us, q, d := ts[..i + 1], ts[i].q, Deltas(e, ts, dk, dv, s, r);
    DeltasPrefix(e, ts, dk, dv, s, r, i + 1);
    Readout(e, us, dk, dv, s, r, q);
    DotScale(e(Cum(ts, i)), q, s);
    AttnRowIsWeights(e, ts, dk, dv, i);
    DotZeroTail(Weights(e, us, dk, dv, q), |ts| - (i + 1), d);
  }

  lemma KeyRowIsWeights(e: real -> real, ts: seq<Token>, dk: nat, dv: nat, p: nat)
    requires Shaped(ts, dk, dv) && p < dk
    ensures KeyRow(e, ts, dk, dv, p) == Weights(e, ts, dk, dv, Unit(dk, p))
  {
    hide Dot;
    forall j | 0 <= j < |ts|
      ensures KeyRow(e, ts, dk, dv, p)[j] == Weights(e, ts, dk, dv, Unit(dk, p))[j]
    {
      DotUnit(dk, p, ts[j].k);
    }
  }

  lemma ChunkColumnCorrect(e: real -> real, ts: seq<Token>, dk: nat, dv: nat, s: Vec, r: nat)
    requires ExpLaw(e) && Shaped(ts, dk, dv) && |s| == dk && r < dv
    ensures ChunkColumn(e, ts, dk, dv, s, Deltas(e, ts, dk, dv, s, r)) == ColumnAfter(e, ts, dk, dv, s, r)
  {
    hide Dot, Weights, KeyRow, Deltas, ColumnAfter, LogDecay, Unit;
    var d := Deltas(e, ts, dk, dv, s, r);
    forall p | 0 <= p < dk
      ensures ChunkColumn(e, ts, dk, dv, s, d)[p] == ColumnAfter(e, ts, dk, dv, s, r)[p]
    {
      Readout(e, ts, dk, dv, s, r, Unit(dk, p));
      DotUnit(dk, p, s);
      DotUnit(dk, p, ColumnAfter(e, ts, dk, dv, s, r));
      KeyRowIsWeights(e, ts, dk, dv, p);
    }
  }
}

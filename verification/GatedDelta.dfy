/** The gated delta rule: the token-by-token recurrence, and handing its state over at any cut.

    One batch entry and one head. The recurrent state (k_head_dim x v_head_dim in the program) is kept
    as the sequence of its v_head_dim columns, each a vector of length k_head_dim: column r only ever
    meets entry r of the values. Queries and keys are taken after normalisation and scaling. */
module GatedDelta {
  import opened LinearAlgebra

  datatype Token = Token(q: Vec, k: Vec, v: Vec, beta: real, g: real)

  type State = seq<Vec>

  ghost predicate Shaped(ts: seq<Token>, dk: nat, dv: nat) {
    forall i :: 0 <= i < |ts| ==> |ts[i].q| == |ts[i].k| == dk && |ts[i].v| == dv
  }

  function Plus(x: real, y: real): real { x + y }

  /** All that is used of the exponential. */
  ghost predicate ExpLaw(e: real -> real) {
    e(0.0) == 1.0 && forall x, y {:trigger Plus(x, y)} :: e(Plus(x, y)) == Times(e(x), e(y))
  }

  // ---- The recurrence ----------------------------------------------------------------------

  /** The correction one token writes into column r. */
  function Delta(e: real -> real, s: Vec, t: Token, r: nat): real
    requires |t.k| == |s| && r < |t.v|
  {
    Times(t.v[r] - Dot(Scale(e(t.g), s), t.k), t.beta)
  }

  function StepColumn(e: real -> real, s: Vec, t: Token, r: nat): (s': Vec)
    requires |t.k| == |s| && r < |t.v|
    ensures |s'| == |s|
  {
    Mix(e(t.g), s, Delta(e, s, t, r), t.k)
  }

  ghost function ColumnAfter(e: real -> real, ts: seq<Token>, dk: nat, dv: nat, s: Vec, r: nat): (s': Vec)
    requires Shaped(ts, dk, dv) && |s| == dk && r < dv
    ensures |s'| == |s|
  {
    if ts == [] then s
    else StepColumn(e, ColumnAfter(e, ts[..|ts| - 1], dk, dv, s, r), ts[|ts| - 1], r)
  }

  /** The state after all of ts. */
  ghost function StateAfter(e: real -> real, ts: seq<Token>, s: State, dk: nat): (s': State)
    requires IsMat(s, dk) && Shaped(ts, dk, |s|)
    ensures |s'| == |s| && IsMat(s', dk)
  {
    seq(|s|, r requires 0 <= r < |s| => ColumnAfter(e, ts, dk, |s|, s[r], r))
  }

  /** What token i reads, after its own update. */
  ghost function OutputAt(e: real -> real, ts: seq<Token>, s: State, dk: nat, i: nat): (o: Vec)
    requires IsMat(s, dk) && Shaped(ts, dk, |s|) && i < |ts|
    ensures |o| == |s|
  {
    seq(|s|, r requires 0 <= r < |s| => Dot(ts[i].q, ColumnAfter(e, ts[..i + 1], dk, |s|, s[r], r)))
  }

  ghost function Outputs(e: real -> real, ts: seq<Token>, s: State, dk: nat): (o: seq<Vec>)
    requires IsMat(s, dk) && Shaped(ts, dk, |s|)
    ensures |o| == |ts|
  {
    seq(|ts|, i requires 0 <= i < |ts| => OutputAt(e, ts, s, dk, i))
  }

  // ---- Running in pieces -------------------------------------------------------------------

  lemma {:induction false} ColumnAppend(e: real -> real, ts: seq<Token>, us: seq<Token>, dk: nat, dv: nat, s: Vec,
                                        r: nat)
    requires Shaped(ts, dk, dv) && Shaped(us, dk, dv) && |s| == dk && r < dv
    ensures ColumnAfter(e, ts + us, dk, dv, s, r) == ColumnAfter(e, us, dk, dv, ColumnAfter(e, ts, dk, dv, s, r), r)
  {
    if us == [] {
      assert ts + us == ts;
    } else {
      var n := |us| - 1;
      ColumnAppend(e, ts, us[..n], dk, dv, s, r);
      assert (ts + us)[..|ts| + n] == ts + us[..n];
    }
  }

  /** Handing the state over at any cut gives the outputs and final state of one pass. */
  lemma RunAppend(e: real -> real, ts: seq<Token>, us: seq<Token>, s: State, dk: nat)
    requires IsMat(s, dk) && Shaped(ts, dk, |s|) && Shaped(us, dk, |s|)
    ensures Shaped(ts + us, dk, |s|)
    ensures StateAfter(e, ts + us, s, dk) == StateAfter(e, us, StateAfter(e, ts, s, dk), dk)
    ensures Outputs(e, ts + us, s, dk) == Outputs(e, ts, s, dk) + Outputs(e, us, StateAfter(e, ts, s, dk), dk)
  {
    var mid := StateAfter(e, ts, s, dk);
    forall r | 0 <= r < |s|
      ensures ColumnAfter(e, ts + us, dk, |s|, s[r], r) == ColumnAfter(e, us, dk, |s|, mid[r], r)
    {
      ColumnAppend(e, ts, us, dk, |s|, s[r], r);
    }
    forall i | 0 <= i < |ts|
      ensures OutputAt(e, ts + us, s, dk, i) == OutputAt(e, ts, s, dk, i)
    {
      assert (ts + us)[..i + 1] == ts[..i + 1];
    }
    forall i | 0 <= i < |us|
      ensures OutputAt(e, ts + us, s, dk, |ts| + i) == OutputAt(e, us, mid, dk, i)
    {
      assert (ts + us)[..|ts| + i + 1] == ts + us[..i + 1];
      forall r | 0 <= r < |s|
        ensures ColumnAfter(e, ts + us[..i + 1], dk, |s|, s[r], r) == ColumnAfter(e, us[..i + 1], dk, |s|, mid[r], r)
      {
        ColumnAppend(e, ts, us[..i + 1], dk, |s|, s[r], r);
      }
    }
    assert Outputs(e, ts + us, s, dk) == Outputs(e, ts, s, dk) + Outputs(e, us, mid, dk);
  }
}

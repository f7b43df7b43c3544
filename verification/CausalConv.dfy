/** Causal (also dilated) depthwise convolution: run once over a zero-padded sequence, or streamed through a
    rolling state of the last columns. Channels are independent, so this is one of them. */
module CausalConv {
  import opened LinearAlgebra
  import opened Sequences

  /** Taps of one channel: weights, bias and the distance between taps. */
  datatype Filter = Filter(weights: seq<real>, bias: real, dilation: nat)

  ghost predicate ValidFilter(f: Filter) {
    |f.weights| >= 1 && f.dilation >= 1
  }

  /** Columns a tap looks back over. */
  function Reach(f: Filter, taps: nat): nat {
    taps * f.dilation
  }

  function Span(f: Filter): nat
    requires ValidFilter(f)
  {
    Reach(f, |f.weights| - 1)
  }

  // ---- The one-shot meaning ----------------------------------------------------------------

  /** Zero outside the sequence. */
  function At(x: seq<real>, i: int): real {
    if 0 <= i < |x| then x[i] else 0.0
  }

  /** The first taps of the filter ending at position t of a zero-padded sequence. */
  function Taps(f: Filter, x: seq<real>, t: int, taps: nat): real
    requires ValidFilter(f) && taps <= |f.weights|
  {
    if taps == 0 then f.bias
    else Taps(f, x, t, taps - 1) + f.weights[taps - 1] * At(x, t - Reach(f, |f.weights| - taps))
  }

  function Causal(f: Filter, x: seq<real>, t: int): real
    requires ValidFilter(f)
  {
    Taps(f, x, t, |f.weights|)
  }

  /** The same, tap by tap on the sequence itself: weight k meets the column (taps - 1 - k) steps of the dilation
      back, or nothing before the start. */
  ghost function TapSum(weights: seq<real>, dilation: nat, x: seq<real>, t: int, k: nat): real
    requires k <= |weights|
  {
    if k == 0 then 0.0
    else
      var q := t - (|weights| - k) * dilation;
      TapSum(weights, dilation, x, t, k - 1) + (if 0 <= q < |x| then weights[k - 1] * x[q] else 0.0)
  }

  lemma {:induction false} TapsAreSum(f: Filter, x: seq<real>, t: int, taps: nat)
    requires ValidFilter(f) && taps <= |f.weights|
    ensures Taps(f, x, t, taps) == f.bias + TapSum(f.weights, f.dilation, x, t, taps)
  {
    if taps > 0 {
      TapsAreSum(f, x, t, taps - 1);
    }
  }

  /** What the convolution is. */
  lemma CausalIsSum(f: Filter, x: seq<real>, t: int)
    requires ValidFilter(f)
    ensures Causal(f, x, t) == f.bias + TapSum(f.weights, f.dilation, x, t, |f.weights|)
    ensures Span(f) == (|f.weights| - 1) * f.dilation
  {
    TapsAreSum(f, x, t, |f.weights|);
  }

  function OneShot(f: Filter, x: seq<real>): (y: seq<real>)
    requires ValidFilter(f)
    ensures |y| == |x|
  {
    seq(|x|, t => Causal(f, x, t))
  }

  // ---- The library convolution -------------------------------------------------------------

  function WindowTaps(f: Filter, input: seq<real>, i: nat, taps: nat): real
    requires ValidFilter(f) && taps <= |f.weights| && i + Span(f) < |input|
  {
    if taps == 0 then f.bias
    else
      ReachMonotone(f, taps - 1, |f.weights| - 1);
      WindowTaps(f, input, i, taps - 1) + f.weights[taps - 1] * input[i + Reach(f, taps - 1)]
  }

  lemma ReachMonotone(f: Filter, a: nat, b: nat)
    requires a <= b
    ensures Reach(f, a) <= Reach(f, b)
  {
    assert (b - a) * f.dilation >= 0;
  }

  /** Convolution without padding: output i covers the columns from i on. */
  function Conv1d(f: Filter, input: seq<real>): (y: seq<real>)
    requires ValidFilter(f) && |input| >= Span(f)
    ensures |y| == |input| - Span(f)
  {
    seq(|input| - Span(f), i requires 0 <= i < |input| - Span(f) => WindowTaps(f, input, i, |f.weights|))
  }

  // ---- The rolling state -------------------------------------------------------------------

  /** The last size columns of a zero-padded history. */
  function StateOf(history: seq<real>, size: nat): (s: seq<real>)
    ensures |s| == size
  {
    seq(size, i => At(history, |history| - size + i))
  }

  /** From column cut on, the input reads as the history's columns up to position end. */
  ghost predicate ReadsAs(input: seq<real>, size: nat, history: seq<real>, x: seq<real>) {
    |input| >= size + |x| && forall q :: 0 <= q < size + |x| ==> input[q] == At(history + x, |history| - size + q)
  }

  lemma StateReads(history: seq<real>, x: seq<real>, size: nat, rest: seq<real>)
    ensures ReadsAs(StateOf(history, size) + x + rest, size, history, x)
  {
    var input := StateOf(history, size) + x + rest;
    forall q | 0 <= q < size + |x| ensures input[q] == At(history + x, |history| - size + q) {
      assert input[q] == if q < size then StateOf(history, size)[q] else x[q - size];
    }
  }

  /** A window over state and new columns is the causal window over the whole history. */
  lemma {:induction false} WindowIsCausal(f: Filter, input: seq<real>, size: nat, history: seq<real>, x: seq<real>,
                                          o: nat, taps: nat)
    requires ValidFilter(f) && size >= Span(f) && taps <= |f.weights| && o < |x|
    requires ReadsAs(input, size, history, x)
    ensures WindowTaps(f, input, size - Span(f) + o, taps) == Taps(f, history + x, |history| + o, taps)
  {
    hide Reach, ReadsAs, At;
    if taps > 0 {
      WindowIsCausal(f, input, size, history, x, o, taps - 1);
      ReachSplits(f, taps);
      ReadsAt(input, size, history, x, size - Span(f) + o + Reach(f, taps - 1));
    } else {
      InputCovers(input, size, history, x);
    }
  }

  lemma InputCovers(input: seq<real>, size: nat, history: seq<real>, x: seq<real>)
    requires ReadsAs(input, size, history, x)
    ensures |input| >= size + |x|
  {
  }

  lemma ReachSplits(f: Filter, taps: nat)
    requires ValidFilter(f) && 0 < taps <= |f.weights|
    ensures Reach(f, taps - 1) + Reach(f, |f.weights| - taps) == Span(f)
  {
  }

  lemma ReadsAt(input: seq<real>, size: nat, history: seq<real>, x: seq<real>, q: nat)
    requires ReadsAs(input, size, history, x) && q < size + |x|
    ensures |input| >= size + |x| && input[q] == At(history + x, |history| - size + q)
  {
  }

  /** Outputs of the library convolution over state and new columns. */
  lemma ConvOnState(f: Filter, input: seq<real>, size: nat, history: seq<real>, x: seq<real>, o: nat)
    requires ValidFilter(f) && size >= Span(f) && o < |x| && ReadsAs(input, size, history, x)
    ensures size - Span(f) + o < |Conv1d(f, input)|
    ensures Conv1d(f, input)[size - Span(f) + o] == Causal(f, history + x, |history| + o)
  {
    WindowIsCausal(f, input, size, history, x, o, |f.weights|);
  }

  /** size columns from an offset are the state after that many new columns. */
  lemma ColumnsAreState(input: seq<real>, size: nat, history: seq<real>, x: seq<real>, offset: nat)
    requires ReadsAs(input, size, history, x) && offset <= |x|
    ensures input[offset..offset + size] == StateOf(history + x[..offset], size)
  {
    forall i | 0 <= i < size ensures input[offset + i] == StateOf(history + x[..offset], size)[i] {
      ReadsAt(input, size, history, x, offset + i);
      PrefixAt(history, x, offset, |history| - size + offset + i);
    }
  }

  lemma ZeroState(size: nat)
    ensures StateOf([], size) == Zeros(size)
  {
    var none: seq<real> := [];
    forall i | 0 <= i < size ensures StateOf(none, size)[i] == Zeros(size)[i] {
      assert At(none, i - size) == 0.0 && |none| - size + i == i - size;
    }
  }

  lemma PrefixAt(history: seq<real>, x: seq<real>, offset: nat, p: int)
    requires offset <= |x| && p < |history| + offset
    ensures At(history + x[..offset], p) == At(history + x, p)
  {
  }

  /** Later columns never matter. */
  lemma {:induction false} TapsLocal(f: Filter, a: seq<real>, b: seq<real>, t: nat, taps: nat)
    requires ValidFilter(f) && taps <= |f.weights| && t < |a|
    ensures Taps(f, a + b, t, taps) == Taps(f, a, t, taps)
  {
    if taps > 0 {
      TapsLocal(f, a, b, t, taps - 1);
    }
  }

  lemma CausalPrefix(f: Filter, a: seq<real>, b: seq<real>, t: nat)
    requires ValidFilter(f) && t < |a|
    ensures Causal(f, a + b, t) == Causal(f, a, t)
  {
    TapsLocal(f, a, b, t, |f.weights|);
  }

  // ---- The two entry points ----------------------------------------------------------------

  function Activated(act: real -> real, y: seq<real>): (z: seq<real>)
    ensures |z| == |y|
  {
    seq(|y|, i requires 0 <= i < |y| => act(y[i]))
  }

  /** The activated causal outputs of new columns x after a history. */
  ghost predicate AreOutputs(f: Filter, act: real -> real, out: seq<real>, history: seq<real>, x: seq<real>)
    requires ValidFilter(f)
  {
    |out| == |x| && forall o :: 0 <= o < |x| ==> out[o] == act(Causal(f, history + x, |history| + o))
  }

  /** Rolls the state forward in place and gives the outputs of the new columns. */
  method CausalConv1dUpdate(f: Filter, act: real -> real, x: seq<real>, convState: array<real>,
                            ghost history: seq<real>)
    returns (out: seq<real>)
    requires ValidFilter(f) && convState.Length >= Span(f) && convState.Length > 0 && |x| > 0
    requires convState[..] == StateOf(history, convState.Length)
    modifies convState
    ensures convState[..] == StateOf(history + x, convState.Length)
    ensures AreOutputs(f, act, out, history, x)
  {
    hide Conv1d, StateOf, ReadsAs, Causal;
    var input := convState[..] + x;
    var size := convState.Length;
    assert input == StateOf(history, size) + x + [];
    StateReads(history, x, size, []);
    ColumnsAreState(input, size, history, x, |x|);
    assert x[..|x|] == x;
    forall i | 0 <= i < size {
      convState[i] := input[|input| - size + i];
    }
    assert convState[..] == input[|x|..|x| + size];
    var y := Conv1d(f, input);
    out := Activated(act, y[|y| - |x|..]);
    forall o | 0 <= o < |x| ensures out[o] == act(Causal(f, history + x, |history| + o)) {
      ConvOnState(f, input, size, history, x, o);
    }
  }

  /** Convolution of a whole sequence, padded on both sides and cut to length. */
  method CausalConv1dFn(f: Filter, act: real -> real, x: seq<real>) returns (out: seq<real>)
    requires ValidFilter(f) && f.dilation == 1
    ensures out == Activated(act, OneShot(f, x))
  {
    hide Conv1d, ReadsAs, Causal;
    var padding := |f.weights| - 1;
    assert padding == Span(f);
    var input := Zeros(padding) + x + Zeros(padding);
    out := Activated(act, Conv1d(f, input)[..|x|]);
    ZeroState(padding);
    assert input == StateOf([], padding) + x + Zeros(padding);
    StateReads([], x, padding, Zeros(padding));
    assert [] + x == x;
    forall o | 0 <= o < |x| ensures out[o] == Activated(act, OneShot(f, x))[o] {
      ConvOnState(f, input, padding, [], x, o);
    }
  }

  // ---- A layer with a cache ----------------------------------------------------------------

  /** Model cache slot: the last size columns once anything has been seen. */
  class ConvCache {
    const size: nat
    var state: array?<real>

    ghost predicate Holds(history: seq<real>)
      reads this, state
    {
      if state == null then history == [] else state.Length == size && state[..] == StateOf(history, size)
    }

    constructor (size: nat)
      ensures Holds([]) && state == null && this.size == size
    {
      this.size := size;
      state := null;
    }

    /** Gives the held columns followed by the new ones, and keeps the last columns of that. */
    method UpdateConvState(x: seq<real>, ghost history: seq<real>) returns (full: seq<real>)
      requires Holds(history)
      modifies this
      ensures Holds(history + x) && state != null && fresh(state)
      ensures full == (if old(state) == null then [] else StateOf(history, size)) + x
    {
      full := (if state == null then [] else state[..]) + x;
      var before := full;
      var s := new real[size](i => At(before, |before| - size + i));
      assert s[..] == StateOf(full, size);
      ghost var held := if state == null then 0 else size;
      assert held == 0 ==> full == StateOf(history, 0) + x;
      HeldState(history, x, held, size);
      state := s;
    }
  }

  /** The last columns of held and new columns are those of the whole history. */
  lemma HeldState(history: seq<real>, x: seq<real>, held: nat, size: nat)
    requires held == size || history == []
    ensures StateOf(StateOf(history, held) + x, size) == StateOf(history + x, size)
  {
    var full := StateOf(history, held) + x;
    forall i | 0 <= i < size ensures StateOf(full, size)[i] == StateOf(history + x, size)[i] {
      HeldAt(full, history, x, held, |full| - size + i);
    }
  }

  /** One call: a cached single column updates the state in place, anything else goes through the whole-sequence
      form over held and new columns and is cut to the new ones. */
  method ConvForward(f: Filter, act: real -> real, x: seq<real>, cache: ConvCache?, recordPast: bool,
                     ghost history: seq<real>)
    returns (out: seq<real>)
    requires ValidFilter(f) && f.dilation == 1 && |x| > 0
    requires if cache == null then history == [] else cache.Holds(history) && cache.size == |f.weights|
    modifies cache, if cache == null then null else cache.state
    ensures AreOutputs(f, act, out, history, x)
    ensures cache != null ==> cache.Holds(history + x) && (cache.state == old(cache.state) || fresh(cache.state))
  {
    hide Causal, StateOf, At, OneShot, Activated;
    SpanOfKernel(f);
    if cache != null && cache.state != null && |x| == 1 && !recordPast {
      out := CausalConv1dUpdate(f, act, x, cache.state, history);
      return;
    }
    var full := x;
    ghost var held: nat := 0;
    if cache != null {
      held := if cache.state == null then 0 else |f.weights|;
      full := cache.UpdateConvState(x, history);
    }
    NothingHeld(history);
    out := CausalConv1dFn(f, act, full);
    TrimmedOutputs(f, act, full, out, history, x, held);
    if cache != null {
      out := out[|out| - |x|..];
    } else {
      assert out[|out| - |x|..] == out;
    }
  }

  lemma NothingHeld(history: seq<real>)
    ensures StateOf(history, 0) == []
  {
  }

  /** The last outputs over held and new columns are the causal outputs of the new ones. */
  lemma TrimmedOutputs(f: Filter, act: real -> real, full: seq<real>, y: seq<real>, history: seq<real>, x: seq<real>,
                       held: nat)
    requires ValidFilter(f) && full == StateOf(history, held) + x && (held >= Span(f) || history == [])
    requires y == Activated(act, OneShot(f, full))
    ensures |y| == held + |x| && AreOutputs(f, act, y[|y| - |x|..], history, x)
  {
    hide Causal, StateOf, At;
    HeldThenNew(f, full, history, x, held);
    forall o | 0 <= o < |x| ensures y[held..][o] == act(Causal(f, history + x, |history| + o)) {
      assert OneShot(f, full)[held..][o] == OneShot(f, history + x)[|history|..][o];
    }
  }

  lemma SpanOfKernel(f: Filter)
    requires ValidFilter(f) && f.dilation == 1
    ensures Span(f) == |f.weights| - 1
  {
  }

  /** The one-shot form over held and new columns agrees with the whole history on the new ones. */
  lemma HeldThenNew(f: Filter, full: seq<real>, history: seq<real>, x: seq<real>, held: nat)
    requires ValidFilter(f) && full == StateOf(history, held) + x && (held >= Span(f) || history == [])
    ensures OneShot(f, full)[held..] == OneShot(f, history + x)[|history|..]
  {
    hide At, Reach;
    forall o | 0 <= o < |x| ensures OneShot(f, full)[held..][o] == OneShot(f, history + x)[|history|..][o] {
      HeldTaps(f, full, history, x, held, o, |f.weights|);
    }
  }

  lemma {:induction false} HeldTaps(f: Filter, full: seq<real>, history: seq<real>, x: seq<real>, held: nat, o: nat,
                                    taps: nat)
    requires ValidFilter(f) && full == StateOf(history, held) + x && (held >= Span(f) || history == []) && o < |x|
    requires taps <= |f.weights|
    ensures Taps(f, full, held + o, taps) == Taps(f, history + x, |history| + o, taps)
  {
    hide Reach, At, StateOf;
    if taps > 0 {
      HeldTaps(f, full, history, x, held, o, taps - 1);
      ReachMonotone(f, |f.weights| - taps, |f.weights| - 1);
      HeldAt(full, history, x, held, held + o - Reach(f, |f.weights| - taps));
    }
  }

  lemma HeldAt(full: seq<real>, history: seq<real>, x: seq<real>, held: nat, q: int)
    requires full == StateOf(history, held) + x && (q >= 0 || history == [])
    ensures At(full, q) == At(history + x, |history| - held + q)
  {
  }

  /** Any cut into pieces, each through whichever path its length selects, gives the one-shot outputs. */
  method RunPieces(f: Filter, act: real -> real, pieces: seq<seq<real>>, recordPast: bool) returns (out: seq<real>)
    requires ValidFilter(f) && f.dilation == 1 && forall i :: 0 <= i < |pieces| ==> |pieces[i]| > 0
    ensures out == Activated(act, OneShot(f, Flat(pieces)))
  {
    hide Causal;
    var cache := new ConvCache(|f.weights|);
    out := [];
    ghost var done: seq<real> := [];
    for i := 0 to |pieces|
      invariant cache.Holds(done) && fresh(cache) && (cache.state == null || fresh(cache.state))
      invariant cache.size == |f.weights|
      invariant done == Flat(pieces[..i]) && out == Activated(act, OneShot(f, done))
    {
      assert pieces[..i + 1][..i] == pieces[..i];
      var y := ConvForward(f, act, pieces[i], cache, recordPast, done);
      ghost var next := done + pieces[i];
      forall t | 0 <= t < |done| ensures Causal(f, next, t) == Causal(f, done, t) {
        CausalPrefix(f, done, pieces[i], t);
      }
      out := out + y;
      done := next;
      assert out == Activated(act, OneShot(f, done));
    }
    assert pieces[..|pieces|] == pieces;
  }

  // ---- The dilated short convolution -------------------------------------------------------

  /** The reference layer: pad on the left, keep state columns and new ones, convolve. */
  method ShortConv(f: Filter, act: real -> real, x: seq<real>, cache: ConvCache?, ghost history: seq<real>)
    returns (out: seq<real>)
    requires ValidFilter(f) && |x| > 0
    requires if cache == null then history == [] else cache.Holds(history) && cache.size == Span(f)
    modifies cache
    ensures AreOutputs(f, act, out, history, x)
    ensures cache != null ==> cache.Holds(history + x) && fresh(cache.state)
  {
    hide Causal, At, Conv1d, Reach, ReadsAs;
    var size := Span(f);
    var full := x;
    ghost var held: nat := 0;
    if cache != null {
      held := if cache.state == null then 0 else size;
      full := cache.UpdateConvState(x, history);
    }
    assert full == StateOf(history, held) + x by {
      assert StateOf(history, 0) == [];
    }
    var padded := Zeros(size) + full;
    var input := padded[|padded| - (size + |x|)..];
    PaddedIsState(history, x, held, size);
    assert input == StateOf(history, size) + x + [];
    StateReads(history, x, size, []);
    out := Activated(act, Conv1d(f, input));
    forall o | 0 <= o < |x| ensures out[o] == act(Causal(f, history + x, |history| + o)) {
      ConvOnState(f, input, size, history, x, o);
    }
  }

  lemma PaddedIsState(history: seq<real>, x: seq<real>, held: nat, size: nat)
    requires held == size || (held == 0 && history == [])
    ensures (Zeros(size) + (StateOf(history, held) + x))[held..] == StateOf(history, size) + x
  {
    ZeroState(size);
  }

  /** Any cut of a sequence into nonempty pieces gives the dilated layer's one-shot outputs. */
  method ShortConvPieces(f: Filter, act: real -> real, pieces: seq<seq<real>>) returns (out: seq<real>)
    requires ValidFilter(f) && forall i :: 0 <= i < |pieces| ==> |pieces[i]| > 0
    ensures out == Activated(act, OneShot(f, Flat(pieces)))
  {
    hide Causal, Span;
    var cache := new ConvCache(Span(f));
    out := [];
    ghost var done: seq<real> := [];
    for i := 0 to |pieces|
      invariant cache.Holds(done) && fresh(cache) && (cache.state == null || fresh(cache.state))
      invariant cache.size == Span(f)
      invariant done == Flat(pieces[..i]) && out == Activated(act, OneShot(f, done))
    {
      assert pieces[..i + 1][..i] == pieces[..i];
      var y := ShortConv(f, act, pieces[i], cache, done);
      ghost var next := done + pieces[i];
      forall t | 0 <= t < |done| ensures Causal(f, next, t) == Causal(f, done, t) {
        CausalPrefix(f, done, pieces[i], t);
      }
      out := out + y;
      done := next;
      assert out == Activated(act, OneShot(f, done));
    }
    assert pieces[..|pieces|] == pieces;
  }

  /** The serving layer on one row, whose columns past its length may be anything: convolved after the row's
      state; the state to write back, the states after each verify step, and the state at the boundary. */
  method ShortConvRow(f: Filter, act: real -> real, state: seq<real>, row: seq<real>, length: nat, boundary: nat,
                      ghost history: seq<real>)
    returns (out: seq<real>, next: seq<real>, steps: seq<seq<real>>, snapshot: seq<real>)
    requires ValidFilter(f) && boundary <= length <= |row| && state == StateOf(history, Span(f))
    ensures |out| == |row| && AreOutputs(f, act, out[..length], history, row[..length])
    ensures next == StateOf(history + row[..length], Span(f)) && snapshot == StateOf(history + row[..boundary], Span(f))
    ensures AreSteps(f, steps, history, row[..length], |row|)
  {
    hide Causal, At, Conv1d, Reach, ReadsAs, StateOf, Activated;
    var size := |state|;
    var input := state + row;
    assert input == StateOf(history, size) + row + [];
    StateReads(history, row, size, []);
    out := RowOutputs(f, act, input, size, row, length, history);
    steps := RowSteps(input, size, row, length, history);
    ColumnsAreState(input, size, history, row, boundary);
    snapshot := input[boundary..boundary + size];
    ColumnsAreState(input, size, history, row, length);
    next := input[length..length + size];
  }

  /** The state after each verify step, zeros past the row's length. */
  ghost predicate AreSteps(f: Filter, steps: seq<seq<real>>, history: seq<real>, x: seq<real>, rowWidth: nat)
    requires ValidFilter(f)
  {
    |steps| == rowWidth && forall j :: 0 <= j < rowWidth ==>
      steps[j] == if j < |x| then StateOf(history + x[..j + 1], Span(f)) else Zeros(Span(f))
  }

  method RowOutputs(f: Filter, act: real -> real, input: seq<real>, size: nat, row: seq<real>, length: nat,
                    ghost history: seq<real>) returns (out: seq<real>)
    requires ValidFilter(f) && size == Span(f) && ReadsAs(input, size, history, row) && |input| == size + |row|
    requires length <= |row|
    ensures |out| == |row| && AreOutputs(f, act, out[..length], history, row[..length])
  {
    hide Causal, Conv1d, Reach, ReadsAs;
    out := Activated(act, Conv1d(f, input));
    ghost var x := row[..length];
    forall o | 0 <= o < length ensures out[..length][o] == act(Causal(f, history + x, |history| + o)) {
      ConvOnState(f, input, size, history, row, o);
      assert history + row == (history + x) + row[length..];
      CausalPrefix(f, history + x, row[length..], |history| + o);
    }
  }

  /** Sliding windows of state columns, zeros past the row's length. */
  method RowSteps(input: seq<real>, size: nat, row: seq<real>, length: nat, ghost history: seq<real>)
    returns (steps: seq<seq<real>>)
    requires ReadsAs(input, size, history, row) && |input| == size + |row| && length <= |row|
    ensures |steps| == |row|
    ensures forall j :: 0 <= j < |row| ==>
      steps[j] == if j < length then StateOf(history + row[..length][..j + 1], size) else Zeros(size)
  {
    hide ReadsAs, StateOf;
    steps := seq(|row|, j requires 0 <= j < |row| && |input| == size + |row| =>
      if j < length then input[j + 1..j + 1 + size] else Zeros(size));
    forall j | 0 <= j < length ensures steps[j] == StateOf(history + row[..length][..j + 1], size) {
      ColumnsAreState(input, size, history, row, j + 1);
      assert row[..length][..j + 1] == row[..j + 1];
    }
  }
}

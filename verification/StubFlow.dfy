/** How far what a stub produced can get: the addresses it flows to during capture and through replays, and a
    proof that these are exactly the addresses where it can show. */
module StubFlow {
  import opened Wrappers
  import opened OutputTrees
  import opened GraphPrograms
  import opened BreakableGraph

  // ---- The flow ----------------------------------------------------------------------------

  /** Sets of addresses whose contents may differ, and what a kernel makes of them. */
  ghost function KernelFlow(k: AKernel, s: set<nat>): set<nat> {
    if Addrs(Tuple(k.srcs)) !! s then s - {k.at} else s + {k.at}
  }

  ghost function BodyFlow(ks: seq<AKernel>, s: set<nat>): set<nat>
    decreases |ks|
  {
    if ks == [] then s else BodyFlow(ks[1..], KernelFlow(ks[0], s))
  }

  /** A break that runs reads its arguments, runs its body, and fills its captured output. */
  ghost function BreakFlow(b: ABreak, s: set<nat>): set<nat> {
    if Addrs(Tuple(b.args)) !! s then BodyFlow(b.body, s) - Addrs(b.output) else BodyFlow(b.body, s) + Addrs(b.output)
  }

  /** One captured operation, stubbed or not in each of two captures. */
  ghost function CaptureOpFlow(op: AOp, stubbed: bool, stubbed': bool, s: set<nat>): set<nat> {
    if op.AEager? && !stubbed && !stubbed' then BreakFlow(op.brk, s)
    else s + OpTouches(op, stubbed) + OpTouches(op, stubbed')
  }

  ghost function CaptureFlow(t: seq<AOp>, which: seq<bool>, which': seq<bool>, s: set<nat>): set<nat>
    requires |which| == |which'| == |t|
    decreases |t|
  {
    if t == [] then s else CaptureFlow(t[1..], which[1..], which'[1..], CaptureOpFlow(t[0], which[0], which'[0], s))
  }

  ghost function OpFlow(op: AOp, s: set<nat>): set<nat> {
    match op
    case ALaunch(k) => KernelFlow(k, s)
    case AEager(b) => BreakFlow(b, s)
  }

  ghost function TraceFlow(t: seq<AOp>, s: set<nat>): set<nat>
    decreases |t|
  {
    if t == [] then s else TraceFlow(t[1..], OpFlow(t[0], s))
  }

  /** Rounds of loading and replaying. */
  ghost function RoundsFlow(env: Env, t: seq<AOp>, loads: seq<seq<Kernel>>, s: set<nat>): set<nat>
    decreases |loads|
  {
    if loads == [] then s else RoundsFlow(env, t, loads[1..], TraceFlow(t, BodyFlow(RecordBody(env, loads[0]), s)))
  }

  // ---- Nothing gets further ----------------------------------------------------------------

  /** Breaks whose output always has the structure that was captured. */
  ghost predicate Steady(t: seq<AOp>) {
    forall i :: 0 <= i < |t| ==> SteadyOp(t[i])
  }

  ghost predicate SteadyOp(op: AOp) {
    op.AEager? ==> Distinct(op.brk.output) && forall v :: Matches(op.brk.output, op.brk.fn(v))
  }

  lemma SteadyParts(t: seq<AOp>)
    requires Steady(t)
    ensures DistinctOutputs(t) && (t != [] ==> SteadyOp(t[0]) && DistinctOutput(t[0]) && Steady(t[1..]))
  {
    hide Distinct, Matches;
    assert forall i :: 0 <= i < |t| ==> SteadyOp(t[i]) && DistinctOutput(t[i]);
  }

  lemma {:induction false} PlacedIsSteady(env: Env, ops: seq<Op>, places: seq<Tree<Cell>>, outs: set<Name>)
    requires |places| == |ops| && WellPlaced(env, ops, places, outs)
    ensures Steady(Trace(env, ops, places)) && DistinctOutputs(Trace(env, ops, places))
    decreases |ops|
  {
    hide Distinct, Matches;
    if ops == [] {
    } else {
      PlacedIsSteady(Bind(env, ops[0], places[0]), ops[1..], places[1..], outs);
      assert SteadyOp(RecordOp(env, ops[0], places[0]));
    }
    SteadyParts(Trace(env, ops, places));
  }

  /** Sources read alike exactly when they miss every difference. */
  lemma ReadAlike(m: Memory, m': Memory, ts: seq<Tree<Cell>>)
    ensures AgreeOn(m, m', Addrs(Tuple(ts))) <==> ContentsOf(m, ts) == ContentsOf(m', ts)
  {
    hide Addrs, AgreeOn;
    var t := Tuple(ts);
    assert Contents(m, t) == Tuple(ContentsOf(m, ts)) && Contents(m', t) == Tuple(ContentsOf(m', ts));
    if AgreeOn(m, m', Addrs(t)) {
      ContentsFrame(m, m', t);
    }
    if ContentsOf(m, ts) == ContentsOf(m', ts) {
      ContentsShow(m, m', t);
    }
  }

  lemma KernelAgrees(m: Memory, m': Memory, k: AKernel, s: set<nat>)
    requires AgreeOff(m, m', s)
    ensures AgreeOff(ExecKernel(m, k), ExecKernel(m', k), KernelFlow(k, s))
  {
    hide Addrs;
    ReadAlike(m, m', k.srcs);
  }

  lemma {:induction false} BodyAgrees(m: Memory, m': Memory, ks: seq<AKernel>, s: set<nat>)
    requires AgreeOff(m, m', s)
    ensures AgreeOff(ExecKernels(m, ks), ExecKernels(m', ks), BodyFlow(ks, s))
    decreases |ks|
  {
    hide AgreeOff, ExecKernel, KernelFlow;
    if ks == [] {
    } else {
      KernelAgrees(m, m', ks[0], s);
      BodyAgrees(ExecKernel(m, ks[0]), ExecKernel(m', ks[0]), ks[1..], KernelFlow(ks[0], s));
    }
  }

  /** A copy of one matching value leaves the same output behind. */
  lemma CopyAgrees(m: Memory, m': Memory, dst: Tree<Cell>, v: Tree<int>, s: set<nat>)
    requires AgreeOff(m, m', s) && Distinct(dst) && Matches(dst, v)
    ensures AgreeOff(CopyOutput(m, dst, v), CopyOutput(m', dst, v), s - Addrs(dst))
  {
    hide Addrs, Distinct, Matches, CopyOutput, Contents;
    CopyIsLocal(m, m, dst, v);
    CopyIsLocal(m', m', dst, v);
    MatchingIsCopied(m, dst, v);
    MatchingIsCopied(m', dst, v);
    ContentsShow(CopyOutput(m, dst, v), CopyOutput(m', dst, v), dst);
  }

  lemma BreakAgrees(m: Memory, m': Memory, b: ABreak, s: set<nat>)
    requires AgreeOff(m, m', s) && SteadyOp(AEager(b))
    ensures AgreeOff(ExecBreak(m, b), ExecBreak(m', b), BreakFlow(b, s))
  {
    hide Addrs, Distinct, Matches, CopyOutput, Contents, ExecKernels, BodyFlow;
    ReadAlike(m, m', b.args);
    BodyAgrees(m, m', b.body, s);
    var n, n' := ExecKernels(m, b.body), ExecKernels(m', b.body);
    var v, v' := b.fn(ContentsOf(m, b.args)), b.fn(ContentsOf(m', b.args));
    CopyIsLocal(n, n, b.output, v);
    CopyIsLocal(n', n', b.output, v');
    CopyAgrees(n, n', b.output, v, BodyFlow(b.body, s));
  }

  lemma CaptureOpAgrees(m: Memory, m': Memory, op: AOp, stub: Option<Tree<int>>, stub': Option<Tree<int>>, s: set<nat>)
    requires AgreeOff(m, m', s) && SteadyOp(op) && DistinctOutput(op)
    ensures AgreeOff(AfterCapturedOp(m, op, stub), AfterCapturedOp(m', op, stub'),
                     CaptureOpFlow(op, stub.Some?, stub'.Some?, s))
  {
    hide ExecBreak, BreakFlow, CopyOutput, OpTouches, Distinct, Matches;
    if op.AEager? && stub.None? && stub'.None? {
      BreakAgrees(m, m', op.brk, s);
    } else {
      OpFrame(m, op, stub);
      OpFrame(m', op, stub');
    }
  }

  /** Two captures differ, if at all, where the flow gets to. */
  lemma {:induction false} CaptureAgrees(m: Memory, m': Memory, t: seq<AOp>, stubs: seq<Option<Tree<int>>>,
                                         stubs': seq<Option<Tree<int>>>, s: set<nat>)
    requires AgreeOff(m, m', s) && Steady(t) && DistinctOutputs(t) && |stubs| == |stubs'| == |t|
    ensures AgreeOff(CaptureRun(m, t, stubs), CaptureRun(m', t, stubs'), CaptureFlow(t, Which(stubs), Which(stubs'), s))
    decreases |t|
  {
    hide AgreeOff, AfterCapturedOp, CaptureOpFlow, SteadyOp, DistinctOutput;
    if t == [] {
    } else {
      SteadyParts(t);
      assert Which(stubs)[1..] == Which(stubs[1..]) && Which(stubs')[1..] == Which(stubs'[1..]);
      CaptureOpAgrees(m, m', t[0], stubs[0], stubs'[0], s);
      CaptureAgrees(AfterCapturedOp(m, t[0], stubs[0]), AfterCapturedOp(m', t[0], stubs'[0]), t[1..], stubs[1..],
                    stubs'[1..], CaptureOpFlow(t[0], stubs[0].Some?, stubs'[0].Some?, s));
    }
  }

  lemma {:induction false} TraceAgrees(m: Memory, m': Memory, t: seq<AOp>, s: set<nat>)
    requires AgreeOff(m, m', s) && Steady(t) && DistinctOutputs(t)
    ensures AgreeOff(RunTrace(m, t), RunTrace(m', t), TraceFlow(t, s))
    decreases |t|
  {
    hide AgreeOff, ExecKernel, ExecBreak, KernelFlow, BreakFlow, SteadyOp, DistinctOutput;
    if t == [] {
    } else {
      SteadyParts(t);
      if t[0].AEager? {
        BreakAgrees(m, m', t[0].brk, s);
      } else {
        KernelAgrees(m, m', t[0].kernel, s);
      }
      TraceAgrees(Exec(m, t[0]), Exec(m', t[0]), t[1..], OpFlow(t[0], s));
    }
  }

  /** A replay leaves a steady trace as it was. */
  lemma {:induction false} SteadyStays(m: Memory, t: seq<AOp>)
    requires Steady(t) && DistinctOutputs(t)
    ensures TraceAfter(m, t) == t
    decreases |t|
  {
    hide Exec, Distinct, Matches;
    if t == [] {
    } else {
      SteadyParts(t);
      if t[0].AEager? {
        MatchingKeepsTree(t[0].brk.output, t[0].brk.fn(ContentsOf(m, t[0].brk.args)));
      }
      SteadyStays(Exec(m, t[0]), t[1..]);
    }
  }

  lemma {:induction false} RoundsAgree(m: Memory, m': Memory, env: Env, t: seq<AOp>, loads: seq<seq<Kernel>>,
                                       s: set<nat>)
    requires AgreeOff(m, m', s) && Steady(t) && DistinctOutputs(t)
    ensures AgreeOff(ReplayRounds(m, env, t, loads), ReplayRounds(m', env, t, loads), RoundsFlow(env, t, loads, s))
    decreases |loads|
  {
    hide AgreeOff, Steady, DistinctOutputs, ExecKernels, RunTrace, TraceFlow, BodyFlow, RecordBody, TraceAfter;
    if loads == [] {
    } else {
      var load := RecordBody(env, loads[0]);
      var n, n' := ExecKernels(m, load), ExecKernels(m', load);
      BodyAgrees(m, m', load, s);
      TraceAgrees(n, n', t, BodyFlow(load, s));
      SteadyStays(n, t);
      SteadyStays(n', t);
      RoundsAgree(RunTrace(n, t), RunTrace(n', t), env, t, loads[1..], TraceFlow(t, BodyFlow(load, s)));
    }
  }

  // ---- It gets that far --------------------------------------------------------------------

  /** Memory that holds 1 at these addresses and 0 elsewhere. */
  ghost predicate Indicates(m: Memory, s: set<nat>) {
    forall a: nat :: Read(m, a) == if a in s then 1 else 0
  }

  /** Answers 0 to what blank memory would show, and 1 to anything else. */
  ghost function Echo(srcs: seq<Tree<Cell>>): seq<Tree<int>> -> int {
    v => if v == ContentsOf(map[], srcs) then 0 else 1
  }

  /** A captured object filled with one number. */
  ghost function Filled(t: Tree<Cell>, n: int): Tree<int> {
    Contents(map a | a in Addrs(t) :: n, t)
  }

  ghost function EchoOutput(args: seq<Tree<Cell>>, output: Tree<Cell>): seq<Tree<int>> -> Tree<int> {
    v => Filled(output, Echo(args)(v))
  }

  ghost predicate IsEcho(op: AOp) {
    match op
    case ALaunch(k) => IsEchoKernel(k)
    case AEager(b) => EchoBody(b.body) && b.fn == EchoOutput(b.args, b.output)
  }

  ghost predicate IsEchoKernel(k: AKernel) {
    k.fn == Echo(k.srcs)
  }

  ghost predicate EchoBody(ks: seq<AKernel>) {
    forall i :: 0 <= i < |ks| ==> IsEchoKernel(ks[i])
  }

  ghost predicate EchoTrace(t: seq<AOp>) {
    forall i :: 0 <= i < |t| ==> IsEcho(t[i])
  }

  lemma EchoAnswers(m: Memory, srcs: seq<Tree<Cell>>, s: set<nat>)
    requires Indicates(m, s)
    ensures Echo(srcs)(ContentsOf(m, srcs)) == if Addrs(Tuple(srcs)) !! s then 0 else 1
  {
    hide Addrs;
    ReadAlike(m, map[], srcs);
  }

  lemma KernelEchoes(m: Memory, k: AKernel, s: set<nat>)
    requires Indicates(m, s) && IsEchoKernel(k)
    ensures Indicates(ExecKernel(m, k), KernelFlow(k, s))
  {
    hide Addrs, Echo;
    EchoAnswers(m, k.srcs, s);
  }

  lemma {:induction false} BodyEchoes(m: Memory, ks: seq<AKernel>, s: set<nat>)
    requires Indicates(m, s) && EchoBody(ks)
    ensures Indicates(ExecKernels(m, ks), BodyFlow(ks, s))
    decreases |ks|
  {
    hide Indicates, ExecKernel, KernelFlow, IsEchoKernel;
    if ks == [] {
    } else {
      KernelEchoes(m, ks[0], s);
      BodyEchoes(ExecKernel(m, ks[0]), ks[1..], KernelFlow(ks[0], s));
    }
  }

  /** Copying a filled object fills the captured one. */
  lemma FilledIsCopied(m: Memory, dst: Tree<Cell>, n: int, s: set<nat>)
    requires Indicates(m, s) && Distinct(dst) && Matches(dst, Filled(dst, n)) && 0 <= n <= 1
    ensures Indicates(CopyOutput(m, dst, Filled(dst, n)), if n == 1 then s + Addrs(dst) else s - Addrs(dst))
  {
    hide Addrs, Distinct, Matches, CopyOutput, Contents;
    var f: Memory := map a | a in Addrs(dst) :: n;
    CopyIsLocal(m, m, dst, Filled(dst, n));
    MatchingIsCopied(m, dst, Filled(dst, n));
    ContentsShow(CopyOutput(m, dst, Filled(dst, n)), f, dst);
  }

  lemma BreakEchoes(m: Memory, b: ABreak, s: set<nat>)
    requires Indicates(m, s) && IsEcho(AEager(b)) && SteadyOp(AEager(b))
    ensures Indicates(ExecBreak(m, b), BreakFlow(b, s))
  {
    hide Indicates, Addrs, Distinct, Matches, CopyOutput, ExecKernels, BodyFlow, Echo, Filled;
    var v := ContentsOf(m, b.args);
    EchoAnswers(m, b.args, s);
    BodyEchoes(m, b.body, s);
    assert b.fn(v) == Filled(b.output, Echo(b.args)(v));
    FilledIsCopied(ExecKernels(m, b.body), b.output, Echo(b.args)(v), BodyFlow(b.body, s));
  }

  /** Stubs that fill every output with one number. */
  ghost function FilledStubs(t: seq<AOp>, which: seq<bool>, n: int): (stubs: seq<Option<Tree<int>>>)
    requires |which| == |t|
    ensures |stubs| == |t|
  {
    seq(|t|, i requires 0 <= i < |t| =>
      if !which[i] then None else if t[i].AEager? then Some(Filled(t[i].brk.output, n)) else Some(Tuple([])))
  }

  lemma CaptureOpEchoes(m: Memory, op: AOp, stubbed: bool, n: int, s: set<nat>)
    requires Indicates(m, s) && IsEcho(op) && SteadyOp(op) && DistinctOutput(op) && 0 <= n <= 1 && (n == 0 ==> s == {})
    ensures Indicates(AfterCapturedOp(m, op, FilledStubs([op], [stubbed], n)[0]),
                      if n == 0 then {} else CaptureOpFlow(op, stubbed, stubbed, s))
  {
    hide Indicates, ExecBreak, Distinct, Matches, Filled, CopyOutput;
    if op.AEager? {
      var b := op.brk;
      if stubbed {
        FilledMatches(b, n);
        FilledIsCopied(m, b.output, n, s);
        assert FilledStubs([op], [stubbed], n)[0] == Some(Filled(b.output, n));
        assert s + OpTouches(op, true) + OpTouches(op, true) == s + Addrs(b.output);
        assert n == 0 ==> s - Addrs(b.output) == {};
      } else {
        BreakEchoes(m, b, s);
        NothingFlows(b);
      }
    }
  }

  lemma FilledMatches(b: ABreak, n: int)
    requires SteadyOp(AEager(b))
    ensures Matches(b.output, Filled(b.output, n))
  {
    hide Matches;
    assert Matches(b.output, b.fn([]));
    MatchesOwn(map a | a in Addrs(b.output) :: n, b.output, b.fn([]));
  }

  lemma {:induction false} NothingInBody(ks: seq<AKernel>)
    ensures BodyFlow(ks, {}) == {}
    decreases |ks|
  {
    if ks == [] {
    } else {
      assert KernelFlow(ks[0], {}) == {};
      NothingInBody(ks[1..]);
    }
  }

  lemma NothingFlows(b: ABreak)
    ensures BreakFlow(b, {}) == {}
  {
    NothingInBody(b.body);
  }

  lemma {:induction false} CaptureEchoes(m: Memory, t: seq<AOp>, which: seq<bool>, n: int, s: set<nat>)
    requires Indicates(m, s) && EchoTrace(t) && Steady(t) && DistinctOutputs(t) && |which| == |t|
    requires 0 <= n <= 1 && (n == 0 ==> s == {})
    ensures Indicates(CaptureRun(m, t, FilledStubs(t, which, n)),
                      if n == 0 then {} else CaptureFlow(t, which, which, s))
    decreases |t|
  {
    hide Indicates, AfterCapturedOp, CaptureOpFlow, SteadyOp, DistinctOutput, IsEcho, Filled;
    if t == [] {
    } else {
      SteadyParts(t);
      var stubs, s' := FilledStubs(t, which, n), if n == 0 then {} else CaptureOpFlow(t[0], which[0], which[0], s);
      assert stubs[1..] == FilledStubs(t[1..], which[1..], n) && stubs[0] == FilledStubs([t[0]], [which[0]], n)[0];
      CaptureOpEchoes(m, t[0], which[0], n, s);
      CaptureEchoes(AfterCapturedOp(m, t[0], stubs[0]), t[1..], which[1..], n, s');
    }
  }

  lemma {:induction false} TraceEchoes(m: Memory, t: seq<AOp>, s: set<nat>)
    requires Indicates(m, s) && EchoTrace(t) && Steady(t) && DistinctOutputs(t)
    ensures Indicates(RunTrace(m, t), TraceFlow(t, s))
    ensures s == {} ==> TraceFlow(t, s) == {}
    decreases |t|
  {
    hide Indicates, ExecKernel, ExecBreak, BreakFlow, SteadyOp, DistinctOutput, IsEchoKernel, EchoBody;
    if t == [] {
    } else {
      SteadyParts(t);
      if t[0].AEager? {
        BreakEchoes(m, t[0].brk, s);
        NothingFlows(t[0].brk);
      } else {
        KernelEchoes(m, t[0].kernel, s);
      }
      TraceEchoes(Exec(m, t[0]), t[1..], OpFlow(t[0], s));
    }
  }

  ghost predicate EchoLoads(env: Env, loads: seq<seq<Kernel>>) {
    forall i :: 0 <= i < |loads| ==> EchoBody(RecordBody(env, loads[i]))
  }

  lemma {:induction false} RoundsEcho(m: Memory, env: Env, t: seq<AOp>, loads: seq<seq<Kernel>>, s: set<nat>)
    requires Indicates(m, s) && EchoTrace(t) && EchoLoads(env, loads) && Steady(t) && DistinctOutputs(t)
    ensures Indicates(ReplayRounds(m, env, t, loads), RoundsFlow(env, t, loads, s))
    ensures s == {} ==> RoundsFlow(env, t, loads, s) == {}
    decreases |loads|
  {
    hide Indicates, Steady, DistinctOutputs, ExecKernels, RunTrace, TraceFlow, BodyFlow, RecordBody, TraceAfter,
      EchoBody, EchoTrace;
    if loads == [] {
    } else {
      var load := RecordBody(env, loads[0]);
      var n := ExecKernels(m, load);
      BodyEchoes(m, load, s);
      NothingInBody(load);
      TraceEchoes(n, t, BodyFlow(load, s));
      SteadyStays(n, t);
      RoundsEcho(RunTrace(n, t), env, t, loads[1..], TraceFlow(t, BodyFlow(load, s)));
    }
  }

  // ---- Passes of one shape -----------------------------------------------------------------

  /** The same pass but for what its kernels and outputs compute. */
  ghost predicate SameOps(ops: seq<Op>, ops': seq<Op>) {
    |ops| == |ops'| && forall i :: 0 <= i < |ops| ==> SameOp(ops[i], ops'[i])
  }

  ghost predicate SameOp(op: Op, op': Op) {
    match op
    case Launch(k) => op'.Launch? && SameKernel(k, op'.kernel)
    case Break(_, _, body, _) => op'.Break? && op'.dst == op.dst && op'.args == op.args && SameBody(body, op'.body)
  }

  ghost predicate SameBody(ks: seq<Kernel>, ks': seq<Kernel>) {
    |ks| == |ks'| && forall i :: 0 <= i < |ks| ==> SameKernel(ks[i], ks'[i])
  }

  ghost predicate SameKernel(k: Kernel, k': Kernel) {
    k'.dst == k.dst && k'.inPlace == k.inPlace && k'.srcs == k.srcs
  }

  ghost predicate SameLoads(loads: seq<seq<Kernel>>, loads': seq<seq<Kernel>>) {
    |loads| == |loads'| && forall i :: 0 <= i < |loads| ==> SameBody(loads[i], loads'[i])
  }

  ghost predicate SameAOp(op: AOp, op': AOp) {
    match op
    case ALaunch(k) => op'.ALaunch? && SameAKernel(k, op'.kernel)
    case AEager(b) =>
      op'.AEager? && op'.brk.output == b.output && op'.brk.args == b.args && SameABody(b.body, op'.brk.body)
  }

  ghost predicate SameABody(ks: seq<AKernel>, ks': seq<AKernel>) {
    |ks| == |ks'| && forall i :: 0 <= i < |ks| ==> SameAKernel(ks[i], ks'[i])
  }

  ghost predicate SameAKernel(k: AKernel, k': AKernel) {
    k'.at == k.at && k'.srcs == k.srcs
  }

  ghost predicate SameTrace(t: seq<AOp>, t': seq<AOp>) {
    |t| == |t'| && forall i :: 0 <= i < |t| ==> SameAOp(t[i], t'[i])
  }

  lemma BodyShape(env: Env, ks: seq<Kernel>, ks': seq<Kernel>)
    requires SameBody(ks, ks')
    ensures SameABody(RecordBody(env, ks), RecordBody(env, ks'))
  {
    forall i | 0 <= i < |ks| ensures SameAKernel(RecordBody(env, ks)[i], RecordBody(env, ks')[i]) {
      assert SameKernel(ks[i], ks'[i]);
    }
  }

  lemma OpShape(env: Env, op: Op, op': Op, place: Tree<Cell>)
    requires SameOp(op, op')
    ensures SameAOp(RecordOp(env, op, place), RecordOp(env, op', place))
    ensures Bind(env, op', place) == Bind(env, op, place)
  {
    hide RecordBody, Target, SameBody, SameABody;
    if op.Break? {
      BodyShape(env, op.body, op'.body);
    } else {
      TargetShape(env, op.kernel, op'.kernel, place);
    }
  }

  /** They are recorded at the same addresses. */
  lemma {:induction false} TraceShape(env: Env, ops: seq<Op>, ops': seq<Op>, places: seq<Tree<Cell>>)
    requires |places| == |ops| && SameOps(ops, ops')
    ensures SameTrace(Trace(env, ops, places), Trace(env, ops', places))
    ensures EnvAfter(env, ops', places) == EnvAfter(env, ops, places)
    decreases |ops|
  {
    hide RecordOp, Bind, SameOp, SameAOp;
    if ops == [] {
    } else {
      assert SameOp(ops[0], ops'[0]);
      assert forall i :: 0 <= i < |ops| - 1 ==> ops[1..][i] == ops[i + 1] && ops'[1..][i] == ops'[i + 1];
      OpShape(env, ops[0], ops'[0], places[0]);
      TraceShape(Bind(env, ops[0], places[0]), ops[1..], ops'[1..], places[1..]);
    }
  }

  lemma TargetShape(env: Env, k: Kernel, k': Kernel, place: Tree<Cell>)
    requires SameKernel(k, k')
    ensures Target(env, k', place) == Target(env, k, place)
  {
  }

  lemma {:induction false} BodyFlowShape(ks: seq<AKernel>, ks': seq<AKernel>, s: set<nat>)
    requires SameABody(ks, ks')
    ensures BodyFlow(ks', s) == BodyFlow(ks, s) && BodyAddrs(ks') == BodyAddrs(ks)
    decreases |ks|
  {
    forall a ensures a in BodyAddrs(ks) <==> a in BodyAddrs(ks') {
      assert forall i :: 0 <= i < |ks| ==> SameAKernel(ks[i], ks'[i]);
    }
    if ks == [] {
    } else {
      assert SameAKernel(ks[0], ks'[0]);
      assert forall i :: 0 <= i < |ks| - 1 ==> ks[1..][i] == ks[i + 1] && ks'[1..][i] == ks'[i + 1];
      BodyFlowShape(ks[1..], ks'[1..], KernelFlow(ks[0], s));
    }
  }

  lemma OpFlowShape(op: AOp, op': AOp, stubbed: bool, stubbed': bool, s: set<nat>)
    requires SameAOp(op, op')
    ensures OpFlow(op', s) == OpFlow(op, s)
    ensures CaptureOpFlow(op', stubbed, stubbed', s) == CaptureOpFlow(op, stubbed, stubbed', s)
  {
    hide BodyFlow, BodyAddrs, SameABody;
    if op.AEager? {
      BodyFlowShape(op.brk.body, op'.brk.body, s);
    }
  }

  lemma {:induction false} FlowShape(t: seq<AOp>, t': seq<AOp>, which: seq<bool>, which': seq<bool>, s: set<nat>)
    requires SameTrace(t, t') && |which| == |which'| == |t|
    ensures CaptureFlow(t', which, which', s) == CaptureFlow(t, which, which', s)
    decreases |t|
  {
    hide SameAOp, CaptureOpFlow;
    if t == [] {
    } else {
      assert SameAOp(t[0], t'[0]) && forall i :: 0 <= i < |t| - 1 ==> t[1..][i] == t[i + 1] && t'[1..][i] == t'[i + 1];
      OpFlowShape(t[0], t'[0], which[0], which'[0], s);
      FlowShape(t[1..], t'[1..], which[1..], which'[1..], CaptureOpFlow(t[0], which[0], which'[0], s));
    }
  }

  lemma {:induction false} TraceFlowShape(t: seq<AOp>, t': seq<AOp>, s: set<nat>)
    requires SameTrace(t, t')
    ensures TraceFlow(t', s) == TraceFlow(t, s)
    decreases |t|
  {
    hide SameAOp, OpFlow;
    if t == [] {
    } else {
      assert SameAOp(t[0], t'[0]) && forall i :: 0 <= i < |t| - 1 ==> t[1..][i] == t[i + 1] && t'[1..][i] == t'[i + 1];
      OpFlowShape(t[0], t'[0], false, false, s);
      TraceFlowShape(t[1..], t'[1..], OpFlow(t[0], s));
    }
  }

  lemma {:induction false} RoundsFlowShape(env: Env, t: seq<AOp>, t': seq<AOp>, loads: seq<seq<Kernel>>,
                                           loads': seq<seq<Kernel>>, s: set<nat>)
    requires SameTrace(t, t') && SameLoads(loads, loads')
    ensures RoundsFlow(env, t', loads', s) == RoundsFlow(env, t, loads, s)
    decreases |loads|
  {
    hide SameTrace, RecordBody, SameABody, SameBody, TraceFlow, BodyFlow;
    if loads == [] {
    } else {
      BodyShape(env, loads[0], loads'[0]);
      BodyFlowShape(RecordBody(env, loads[0]), RecordBody(env, loads'[0]), s);
      var s' := BodyFlow(RecordBody(env, loads[0]), s);
      TraceFlowShape(t, t', s');
      assert forall i :: 0 <= i < |loads| - 1 ==> loads[1..][i] == loads[i + 1] && loads'[1..][i] == loads'[i + 1];
      RoundsFlowShape(env, t, t', loads[1..], loads'[1..], TraceFlow(t, s'));
    }
  }

  // ---- The pass that shows everything ------------------------------------------------------

  ghost function EchoKernelOf(env: Env, k: Kernel): Kernel {
    k.(fn := Echo(Named(env, k.srcs)))
  }

  ghost function EchoBodyOf(env: Env, ks: seq<Kernel>): (r: seq<Kernel>)
    ensures |r| == |ks|
  {
    seq(|ks|, i requires 0 <= i < |ks| => EchoKernelOf(env, ks[i]))
  }

  ghost function EchoOp(env: Env, op: Op, place: Tree<Cell>): Op {
    match op
    case Launch(k) => Launch(EchoKernelOf(env, k))
    case Break(dst, args, body, _) => Break(dst, args, EchoBodyOf(env, body), EchoOutput(Named(env, args), place))
  }

  ghost function EchoOps(env: Env, ops: seq<Op>, places: seq<Tree<Cell>>): (r: seq<Op>)
    requires |places| == |ops|
    ensures |r| == |ops|
    decreases |ops|
  {
    if ops == [] then []
    else [EchoOp(env, ops[0], places[0])] + EchoOps(Bind(env, ops[0], places[0]), ops[1..], places[1..])
  }

  ghost function EchoLoadsOf(env: Env, loads: seq<seq<Kernel>>): (r: seq<seq<Kernel>>)
    ensures |r| == |loads|
  {
    seq(|loads|, i requires 0 <= i < |loads| => EchoBodyOf(env, loads[i]))
  }

  lemma EchoBodyIs(env: Env, ks: seq<Kernel>)
    ensures SameBody(ks, EchoBodyOf(env, ks)) && EchoBody(RecordBody(env, EchoBodyOf(env, ks)))
    ensures BodyUses(EchoBodyOf(env, ks)) == BodyUses(ks)
    ensures BodyInPlace(env, ks) ==> BodyInPlace(env, EchoBodyOf(env, ks))
  {
    forall i | 0 <= i < |ks| ensures IsEchoKernel(RecordBody(env, EchoBodyOf(env, ks))[i]) {
    }
    UsesShape(ks, EchoBodyOf(env, ks));
    if BodyInPlace(env, ks) {
      forall i | 0 <= i < |ks| ensures InPlaceIn(env, EchoBodyOf(env, ks)[i]) {
        assert InPlaceIn(env, ks[i]);
      }
    }
  }

  lemma {:induction false} UsesShape(ks: seq<Kernel>, ks': seq<Kernel>)
    requires SameBody(ks, ks')
    ensures BodyUses(ks') == BodyUses(ks)
    decreases |ks|
  {
    if ks == [] {
    } else {
      assert SameKernel(ks[0], ks'[0]) && KernelUses(ks'[0]) == KernelUses(ks[0]);
      assert forall i :: 0 <= i < |ks| - 1 ==> ks[1..][i] == ks[i + 1] && ks'[1..][i] == ks'[i + 1];
      UsesShape(ks[1..], ks'[1..]);
    }
  }

  lemma EchoOpIs(env: Env, op: Op, place: Tree<Cell>, needed: set<Name>)
    requires OpPlaced(env, op, place, needed)
    ensures var op' := EchoOp(env, op, place);
      SameOp(op, op') && IsEcho(RecordOp(env, op', place)) && OpPlaced(env, op', place, needed) &&
      Bind(env, op', place) == Bind(env, op, place) && Binds(op') == Binds(op) && Uses(op') == Uses(op)
  {
    hide Matches, Distinct, Addrs, RecordBody, EchoBodyOf, EchoBody, SameBody, BodyInPlace, BodyUses, Filled;
    if op.Break? {
      EchoBodyIs(env, op.body);
      forall v ensures Matches(place, EchoOutput(Named(env, op.args), place)(v)) {
        var b := ABreak(place, [], [], op.fn);
        FilledMatches(b, Echo(Named(env, op.args))(v));
      }
    }
  }

  /** It has the shape of the pass and is as well placed, and its trace echoes. */
  lemma {:induction false} EchoOpsAre(env: Env, ops: seq<Op>, places: seq<Tree<Cell>>, outs: set<Name>)
    requires |places| == |ops| && WellPlaced(env, ops, places, outs)
    ensures var ops' := EchoOps(env, ops, places);
      SameOps(ops, ops') && WellPlaced(env, ops', places, outs) && Needs(ops', outs) == Needs(ops, outs) &&
      EchoTrace(Trace(env, ops', places))
    decreases |ops|
  {
    hide OpPlaced, RecordOp, EchoOp, SameOp, IsEcho, Bind, Uses, Binds;
    if ops == [] {
    } else {
      var rest := EchoOps(Bind(env, ops[0], places[0]), ops[1..], places[1..]);
      var ops' := EchoOps(env, ops, places);
      EchoOpIs(env, ops[0], places[0], Needs(ops[1..], outs));
      EchoOpsAre(Bind(env, ops[0], places[0]), ops[1..], places[1..], outs);
      assert ops'[0] == EchoOp(env, ops[0], places[0]) && ops'[1..] == rest;
      assert Trace(env, ops', places)[1..] == Trace(Bind(env, ops[0], places[0]), rest, places[1..]);
      forall i | 0 <= i < |ops| ensures SameOp(ops[i], ops'[i]) {
        if i > 0 {
          assert SameOp(ops[1..][i - 1], rest[i - 1]);
        }
      }
    }
  }

  lemma EchoLoadsAre(env: Env, loads: seq<seq<Kernel>>)
    ensures SameLoads(loads, EchoLoadsOf(env, loads)) && EchoLoads(env, EchoLoadsOf(env, loads))
  {
    hide SameBody, EchoBody, EchoBodyOf, RecordBody;
    forall i | 0 <= i < |loads|
      ensures SameBody(loads[i], EchoBodyOf(env, loads[i])) && EchoBody(RecordBody(env, EchoBodyOf(env, loads[i])))
    {
      EchoBodyIs(env, loads[i]);
    }
  }

  // ---- Exactly where a stub shows ----------------------------------------------------------

  /** A pass of this shape, whatever its kernels and outputs compute. */
  ghost predicate Variant(env: Env, ops: seq<Op>, ops': seq<Op>, places: seq<Tree<Cell>>, outs: set<Name>) {
    SameOps(ops, ops') && |places| == |ops'| && WellPlaced(env, ops', places, outs)
  }

  /** Two captures leave the same in a tensor held when they start. */
  ghost predicate CapturedAlike(env: Env, ops: seq<Op>, places: seq<Tree<Cell>>, m: Memory, m': Memory,
                                stubs: seq<Option<Tree<int>>>, stubs': seq<Option<Tree<int>>>, n: Name)
  {
    |places| == |ops| == |stubs| == |stubs'| && DistinctOutputs(Trace(env, ops, places)) && n in env &&
    Contents(CaptureRun(m, Trace(env, ops, places), stubs), env[n])
      == Contents(CaptureRun(m', Trace(env, ops, places), stubs'), env[n])
  }

  /** And all rounds after them leave the same in a tensor of the pass. */
  ghost predicate ReplayedAlike(env: Env, ops: seq<Op>, places: seq<Tree<Cell>>, m: Memory, m': Memory,
                                stubs: seq<Option<Tree<int>>>, stubs': seq<Option<Tree<int>>>,
                                loads: seq<seq<Kernel>>, n: Name)
  {
    |places| == |ops| == |stubs| == |stubs'| && DistinctOutputs(Trace(env, ops, places)) &&
    SameAfterRounds(env, ops, places, CaptureRun(m, Trace(env, ops, places), stubs),
                    CaptureRun(m', Trace(env, ops, places), stubs'), loads, n)
  }

  /** From one memory, whatever the pass computes and the stubs produce. */
  ghost predicate AlwaysCapturedAlike(env: Env, ops: seq<Op>, places: seq<Tree<Cell>>, outs: set<Name>,
                                      which: seq<bool>, n: Name)
  {
    forall ops', m: Memory, stubs, stubs' ::
      Variant(env, ops, ops', places, outs) && Which(stubs) == which == Which(stubs') ==>
        CapturedAlike(env, ops', places, m, m, stubs, stubs', n)
  }

  /** From one memory, whatever the pass and the loads compute and the stubs produce. */
  ghost predicate AlwaysReplayedAlike(env: Env, ops: seq<Op>, places: seq<Tree<Cell>>, outs: set<Name>,
                                      which: seq<bool>, loads: seq<seq<Kernel>>, n: Name)
  {
    forall ops', loads', m: Memory, stubs, stubs' ::
      Variant(env, ops, ops', places, outs) && SameLoads(loads, loads') && Which(stubs) == which == Which(stubs') ==>
        ReplayedAlike(env, ops', places, m, m, stubs, stubs', loads', n)
  }

  /** Where two memories differ. */
  ghost function Differ(m: Memory, m': Memory): set<nat> {
    set a | a in m.Keys + m'.Keys && Read(m, a) != Read(m', a)
  }

  lemma DifferIsAll(m: Memory, m': Memory)
    ensures AgreeOff(m, m', Differ(m, m')) && Differ(m, m) == {}
  {
  }

  /** A tensor that the flow misses is captured alike. */
  lemma MissedAtCapture(env: Env, ops: seq<Op>, places: seq<Tree<Cell>>, outs: set<Name>, m: Memory, m': Memory,
                        stubs: seq<Option<Tree<int>>>, stubs': seq<Option<Tree<int>>>, n: Name)
    requires |places| == |ops| == |stubs| == |stubs'| && WellPlaced(env, ops, places, outs) && n in env
    requires Addrs(env[n]) !! CaptureFlow(Trace(env, ops, places), Which(stubs), Which(stubs'), Differ(m, m'))
    ensures CapturedAlike(env, ops, places, m, m', stubs, stubs', n)
  {
    hide Addrs, WellPlaced, Trace, CaptureFlow, CaptureRun, Differ, Contents, Steady, DistinctOutputs;
    var t := Trace(env, ops, places);
    PlacedIsSteady(env, ops, places, outs);
    DifferIsAll(m, m');
    CaptureAgrees(m, m', t, stubs, stubs', Differ(m, m'));
    ContentsFrame(CaptureRun(m, t, stubs), CaptureRun(m', t, stubs'), env[n]);
  }

  /** A tensor that the flow misses through capture and rounds is replayed alike, even when the captures start
      from different memories and stub different breaks. */
  lemma MissedInReplay(env: Env, ops: seq<Op>, places: seq<Tree<Cell>>, outs: set<Name>, m: Memory, m': Memory,
                       stubs: seq<Option<Tree<int>>>, stubs': seq<Option<Tree<int>>>, loads: seq<seq<Kernel>>, n: Name)
    requires |places| == |ops| == |stubs| == |stubs'| && WellPlaced(env, ops, places, outs)
    requires n in EnvAfter(env, ops, places)
    requires var t := Trace(env, ops, places);
      Addrs(EnvAfter(env, ops, places)[n])
        !! RoundsFlow(env, t, loads, CaptureFlow(t, Which(stubs), Which(stubs'), Differ(m, m')))
    ensures ReplayedAlike(env, ops, places, m, m', stubs, stubs', loads, n)
  {
    hide Addrs, WellPlaced, Trace, CaptureFlow, RoundsFlow, CaptureRun, ReplayRounds, EnvAfter, Differ, Contents,
      Steady, DistinctOutputs;
    var t := Trace(env, ops, places);
    PlacedIsSteady(env, ops, places, outs);
    DifferIsAll(m, m');
    var s := CaptureFlow(t, Which(stubs), Which(stubs'), Differ(m, m'));
    var c, c' := CaptureRun(m, t, stubs), CaptureRun(m', t, stubs');
    CaptureAgrees(m, m', t, stubs, stubs', Differ(m, m'));
    RoundsAgree(c, c', env, t, loads, s);
    ContentsFrame(ReplayRounds(c, env, t, loads), ReplayRounds(c', env, t, loads), EnvAfter(env, ops, places)[n]);
  }

  /** The echo of a pass, stubbed with 0s and with 1s. */
  lemma EchoCaptures(env: Env, ops: seq<Op>, places: seq<Tree<Cell>>, outs: set<Name>, which: seq<bool>)
    requires |places| == |ops| == |which| && WellPlaced(env, ops, places, outs)
    ensures var ops' := EchoOps(env, ops, places);
      var t' := Trace(env, ops', places);
      Variant(env, ops, ops', places, outs) && Steady(t') && DistinctOutputs(t') && EchoTrace(t') &&
      SameTrace(Trace(env, ops, places), t') && EnvAfter(env, ops', places) == EnvAfter(env, ops, places) &&
      Which(FilledStubs(t', which, 0)) == which && Which(FilledStubs(t', which, 1)) == which &&
      Indicates(CaptureRun(map[], t', FilledStubs(t', which, 0)), {}) &&
      Indicates(CaptureRun(map[], t', FilledStubs(t', which, 1)),
                CaptureFlow(Trace(env, ops, places), which, which, {}))
  {
    hide WellPlaced, Trace, EnvAfter, CaptureRun, CaptureFlow, Steady, DistinctOutputs, EchoTrace, SameTrace, SameOps,
      Filled, EchoOps;
    var ops' := EchoOps(env, ops, places);
    EchoOpsAre(env, ops, places, outs);
    var t, t' := Trace(env, ops, places), Trace(env, ops', places);
    PlacedIsSteady(env, ops', places, outs);
    TraceShape(env, ops, ops', places);
    TraceLength(t, t');
    FlowShape(t, t', which, which, {});
    CaptureEchoes(map[], t', which, 0, {});
    CaptureEchoes(map[], t', which, 1, {});
  }

  lemma TraceLength(t: seq<AOp>, t': seq<AOp>)
    requires SameTrace(t, t')
    ensures |t| == |t'|
  {
  }

  /** 0 and 1 read alike only where there is nothing of the flow. */
  lemma IndicatorsShow(m: Memory, m': Memory, s: set<nat>, t: Tree<Cell>)
    requires Indicates(m, {}) && Indicates(m', s) && Contents(m, t) == Contents(m', t)
    ensures Addrs(t) !! s
  {
    hide Addrs, Contents;
    ContentsShow(m, m', t);
  }

  /** What stubs produce never shows in a tensor after capture, whatever the pass computes, if and only if the
      flow misses its addresses. */
  lemma CaptureFlowExact(env: Env, ops: seq<Op>, places: seq<Tree<Cell>>, outs: set<Name>, which: seq<bool>, n: Name)
    requires |places| == |ops| == |which| && WellPlaced(env, ops, places, outs) && n in env
    ensures Addrs(env[n]) !! CaptureFlow(Trace(env, ops, places), which, which, {})
            <==> AlwaysCapturedAlike(env, ops, places, outs, which, n)
  {
    hide Addrs, WellPlaced, Trace, EnvAfter, CaptureRun, CaptureFlow, Steady, DistinctOutputs, EchoTrace, SameTrace,
      SameOps, Indicates, Filled, EchoOps, FilledStubs, Which, Contents;
    var t := Trace(env, ops, places);
    if Addrs(env[n]) !! CaptureFlow(t, which, which, {}) {
      forall ops', m: Memory, stubs, stubs'
        | Variant(env, ops, ops', places, outs) && Which(stubs) == which == Which(stubs')
        ensures CapturedAlike(env, ops', places, m, m, stubs, stubs', n)
      {
        TraceShape(env, ops, ops', places);
        FlowShape(t, Trace(env, ops', places), which, which, {});
        DifferIsAll(m, m);
        MissedAtCapture(env, ops', places, outs, m, m, stubs, stubs', n);
      }
    }
    if AlwaysCapturedAlike(env, ops, places, outs, which, n) {
      var ops' := EchoOps(env, ops, places);
      EchoCaptures(env, ops, places, outs, which);
      var t' := Trace(env, ops', places);
      var zeros, ones := FilledStubs(t', which, 0), FilledStubs(t', which, 1);
      assert CapturedAlike(env, ops', places, map[], map[], zeros, ones, n);
      IndicatorsShow(CaptureRun(map[], t', zeros), CaptureRun(map[], t', ones), CaptureFlow(t, which, which, {}),
                     env[n]);
    }
  }

  /** What stubs produce never shows in a tensor after any rounds of loads and replays, whatever pass and loads
      compute, if and only if the flow through capture and rounds misses its addresses. */
  lemma ReplayFlowExact(env: Env, ops: seq<Op>, places: seq<Tree<Cell>>, outs: set<Name>, which: seq<bool>,
                        loads: seq<seq<Kernel>>, n: Name)
    requires |places| == |ops| == |which| && WellPlaced(env, ops, places, outs) && n in EnvAfter(env, ops, places)
    ensures var t := Trace(env, ops, places);
      Addrs(EnvAfter(env, ops, places)[n]) !! RoundsFlow(env, t, loads, CaptureFlow(t, which, which, {}))
      <==> AlwaysReplayedAlike(env, ops, places, outs, which, loads, n)
  {
    hide Addrs, WellPlaced, Trace, EnvAfter, CaptureRun, CaptureFlow, ReplayRounds, RoundsFlow, Steady, DistinctOutputs,
      EchoTrace, SameTrace, SameOps, SameLoads, Indicates, Filled, EchoOps, FilledStubs, EchoLoadsOf, EchoLoads, Which,
      Contents;
    var t := Trace(env, ops, places);
    var s := CaptureFlow(t, which, which, {});
    if Addrs(EnvAfter(env, ops, places)[n]) !! RoundsFlow(env, t, loads, s) {
      forall ops', loads', m: Memory, stubs, stubs'
        | Variant(env, ops, ops', places, outs) && SameLoads(loads, loads') && Which(stubs) == which == Which(stubs')
        ensures ReplayedAlike(env, ops', places, m, m, stubs, stubs', loads', n)
      {
        TraceShape(env, ops, ops', places);
        FlowShape(t, Trace(env, ops', places), which, which, {});
        RoundsFlowShape(env, t, Trace(env, ops', places), loads, loads', s);
        DifferIsAll(m, m);
        MissedInReplay(env, ops', places, outs, m, m, stubs, stubs', loads', n);
      }
    }
    if AlwaysReplayedAlike(env, ops, places, outs, which, loads, n) {
      var ops', loads' := EchoOps(env, ops, places), EchoLoadsOf(env, loads);
      EchoCaptures(env, ops, places, outs, which);
      EchoLoadsAre(env, loads);
      var t' := Trace(env, ops', places);
      var zeros, ones := FilledStubs(t', which, 0), FilledStubs(t', which, 1);
      assert ReplayedAlike(env, ops', places, map[], map[], zeros, ones, loads', n);
      var c, c' := CaptureRun(map[], t', zeros), CaptureRun(map[], t', ones);
      RoundsEcho(c, env, t', loads', {});
      RoundsEcho(c', env, t', loads', s);
      RoundsFlowShape(env, t, t', loads, loads', s);
      IndicatorsShow(ReplayRounds(c, env, t', loads'), ReplayRounds(c', env, t', loads'), RoundsFlow(env, t, loads, s),
                     EnvAfter(env, ops, places)[n]);
    }
  }

  // ---- What follows for static buffers -----------------------------------------------------

  /** Two captures that differ in their stubs replay to the same results, for every list of loads, provided what
      the pass needs is settled by the first load and by static names that the flow misses. */
  lemma StubsLeaveNoMark(env: Env, ops: seq<Op>, places: seq<Tree<Cell>>, outs: set<Name>, statics: set<Name>,
                         known: set<Name>, m: Memory, stubs: seq<Option<Tree<int>>>, m': Memory,
                         stubs': seq<Option<Tree<int>>>, loads: seq<seq<Kernel>>)
    requires |places| == |ops| == |stubs| == |stubs'| && WellPlaced(env, ops, places, outs)
    requires LoadsOk(env, statics, loads) && loads != []
    requires Needs(ops, outs) <= statics <= outs && statics <= env.Keys && NeverBound(ops, statics)
    requires ApartIn(env, statics) && known <= statics
    requires forall n :: n in known ==>
      Addrs(env[n]) !! CaptureFlow(Trace(env, ops, places), Which(stubs), Which(stubs'), Differ(m, m'))
    requires Needs(ops, outs) <= Settled(loads[0], known)
    ensures forall n :: n in outs ==> ReplayedAlike(env, ops, places, m, m', stubs, stubs', loads, n)
  {
    hide WellPlaced, Addrs, Needs, SameAfterRounds, CaptureRun, CaptureFlow, LoadsOk, Settled, Contents, Differ, Trace;
    PlacedOutputsDistinct(env, ops, places, outs);
    var t := Trace(env, ops, places);
    var c, c' := CaptureRun(m, t, stubs), CaptureRun(m', t, stubs');
    forall n | n in known ensures Contents(c, env[n]) == Contents(c', env[n]) {
      MissedAtCapture(env, ops, places, outs, m, m', stubs, stubs', n);
    }
    SettledRoundsAgree(env, ops, places, outs, statics, known, c, c', loads);
  }

  /** Where the flow misses the static names, values produced by stubs never affect a replay: from one memory,
      whatever the stubs and the loads, and whatever the bodies that run write. */
  lemma StubValuesNeverMatter(env: Env, ops: seq<Op>, places: seq<Tree<Cell>>, outs: set<Name>, statics: set<Name>,
                              m: Memory, stubs: seq<Option<Tree<int>>>, stubs': seq<Option<Tree<int>>>,
                              loads: seq<seq<Kernel>>)
    requires |places| == |ops| == |stubs| == |stubs'| && WellPlaced(env, ops, places, outs)
    requires LoadsOk(env, statics, loads) && loads != []
    requires Needs(ops, outs) <= statics <= outs && statics <= env.Keys && NeverBound(ops, statics)
    requires ApartIn(env, statics)
    requires forall n :: n in statics ==>
      Addrs(env[n]) !! CaptureFlow(Trace(env, ops, places), Which(stubs), Which(stubs'), {})
    ensures forall n :: n in outs ==> ReplayedAlike(env, ops, places, m, m, stubs, stubs', loads, n)
  {
    hide WellPlaced, Addrs, Needs, ReplayedAlike, CaptureFlow, Settled, BodyInPlace, NeverBound, Trace, ApartIn;
    DifferIsAll(m, m);
    assert BodyUses(loads[0]) <= statics;
    LoadKeepsSettled(loads[0], statics);
    StubsLeaveNoMark(env, ops, places, outs, statics, statics, m, stubs, m, stubs', loads);
  }

  // ---- Names no body writes are missed -----------------------------------------------------

  lemma {:induction false} BodyFlowBound(ks: seq<AKernel>, s: set<nat>)
    ensures BodyFlow(ks, s) <= s + BodyAddrs(ks)
    decreases |ks|
  {
    hide Addrs;
    if ks == [] {
    } else {
      BodyFlowBound(ks[1..], KernelFlow(ks[0], s));
      assert ks[0].at in BodyAddrs(ks) && forall i :: 0 <= i < |ks| - 1 ==> ks[1..][i] == ks[i + 1];
      assert BodyAddrs(ks[1..]) <= BodyAddrs(ks);
    }
  }

  /** The flow never leaves what it starts from and what the captures write. */
  lemma {:induction false} FlowBound(t: seq<AOp>, which: seq<bool>, which': seq<bool>, s: set<nat>)
    requires |which| == |which'| == |t|
    ensures CaptureFlow(t, which, which', s) <= s + CaptureTouches(t, which) + CaptureTouches(t, which')
    decreases |t|
  {
    hide Addrs, BodyFlow, BodyAddrs;
    if t == [] {
    } else {
      if t[0].AEager? {
        BodyFlowBound(t[0].brk.body, s);
      }
      FlowBound(t[1..], which[1..], which'[1..], CaptureOpFlow(t[0], which[0], which'[0], s));
    }
  }

  /** A static name that both memories agree on and no body run at capture writes is missed. */
  lemma UnwrittenIsMissed(env: Env, ops: seq<Op>, places: seq<Tree<Cell>>, outs: set<Name>, m: Memory, m': Memory,
                          stubs: seq<Option<Tree<int>>>, stubs': seq<Option<Tree<int>>>, n: Name)
    requires |places| == |ops| == |stubs| == |stubs'| && WellPlaced(env, ops, places, outs)
    requires ApartIn(env, Needs(ops, outs)) && n in outs && n in env && NeverBound(ops, {n})
    requires n !in CaptureWrites(ops, stubs) && n !in CaptureWrites(ops, stubs')
    requires Contents(m, env[n]) == Contents(m', env[n])
    ensures Addrs(env[n]) !! CaptureFlow(Trace(env, ops, places), Which(stubs), Which(stubs'), Differ(m, m'))
  {
    hide Addrs, Contents, WellPlaced, Trace, CaptureFlow, CaptureTouches, CaptureWrites, Which, Needs, ApartIn;
    ContentsShow(m, m', env[n]);
    CaptureMisses(env, ops, places, outs, stubs, n);
    CaptureMisses(env, ops, places, outs, stubs', n);
    FlowBound(Trace(env, ops, places), Which(stubs), Which(stubs'), Differ(m, m'));
  }

  /** So names settled by the first load, or agreed on and written by no body run at capture, are enough. */
  lemma UnwrittenLeaveNoMark(env: Env, ops: seq<Op>, places: seq<Tree<Cell>>, outs: set<Name>, statics: set<Name>,
                             known: set<Name>, m: Memory, stubs: seq<Option<Tree<int>>>, m': Memory,
                             stubs': seq<Option<Tree<int>>>, loads: seq<seq<Kernel>>)
    requires |places| == |ops| == |stubs| == |stubs'| && WellPlaced(env, ops, places, outs)
    requires LoadsOk(env, statics, loads) && loads != []
    requires Needs(ops, outs) <= statics <= outs && statics <= env.Keys && NeverBound(ops, statics)
    requires ApartIn(env, statics) && known <= statics
    requires known !! CaptureWrites(ops, stubs) && known !! CaptureWrites(ops, stubs')
    requires forall n :: n in known ==> Contents(m, env[n]) == Contents(m', env[n])
    requires Needs(ops, outs) <= Settled(loads[0], known)
    ensures forall n :: n in outs ==> ReplayedAlike(env, ops, places, m, m', stubs, stubs', loads, n)
  {
    hide Addrs, Contents, WellPlaced, Trace, CaptureFlow, CaptureWrites, Which, Needs, LoadsOk, Settled, ReplayedAlike,
      Differ;
    forall n | n in known
      ensures Addrs(env[n]) !! CaptureFlow(Trace(env, ops, places), Which(stubs), Which(stubs'), Differ(m, m'))
    {
      assert NeverBound(ops, {n});
      UnwrittenIsMissed(env, ops, places, outs, m, m', stubs, stubs', n);
    }
    StubsLeaveNoMark(env, ops, places, outs, statics, known, m, stubs, m', stubs', loads);
  }
}

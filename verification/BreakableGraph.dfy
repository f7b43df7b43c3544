/** Breakable graph capture and replay: recorded segments, eager breaks between them, and replay over the
    captured addresses. */
module BreakableGraph {
  import opened Wrappers
  import opened OutputTrees
  import opened GraphPrograms

  function Launches(ks: seq<AKernel>): (t: seq<AOp>)
    ensures |t| == |ks|
  {
    seq(|ks|, i requires 0 <= i < |ks| => ALaunch(ks[i]))
  }

  /** The first upTo segments, each followed by its break if there is one. */
  function Woven(segments: seq<seq<AKernel>>, breaks: seq<ABreak>, upTo: nat): seq<AOp>
    requires upTo <= |segments|
  {
    if upTo == 0 then []
    else Woven(segments, breaks, upTo - 1) + Launches(segments[upTo - 1]) +
         (if upTo - 1 < |breaks| then [AEager(breaks[upTo - 1])] else [])
  }

  lemma {:induction false} WovenPrefix(s: seq<seq<AKernel>>, s': seq<seq<AKernel>>, b: seq<ABreak>, b': seq<ABreak>,
                                       upTo: nat)
    requires upTo <= |s| && upTo <= |s'| && s[..upTo] == s'[..upTo]
    requires upTo <= |b| && upTo <= |b'| && b[..upTo] == b'[..upTo]
    ensures Woven(s, b, upTo) == Woven(s', b', upTo)
  {
    if upTo > 0 {
      assert s[upTo - 1] == s[..upTo][upTo - 1] == s'[upTo - 1] && b[upTo - 1] == b[..upTo][upTo - 1] == b'[upTo - 1];
      assert s[..upTo - 1] == s[..upTo][..upTo - 1] == s'[..upTo - 1];
      assert b[..upTo - 1] == b[..upTo][..upTo - 1] == b'[..upTo - 1];
      WovenPrefix(s, s', b, b', upTo - 1);
    }
  }

  /** A trace runs piece by piece. */
  lemma {:induction false} RunTraceAppend(m: Memory, t: seq<AOp>, u: seq<AOp>)
    requires DistinctOutputs(t) && DistinctOutputs(u)
    ensures DistinctOutputs(t + u) && RunTrace(m, t + u) == RunTrace(RunTrace(m, t), u)
    ensures TraceAfter(m, t + u) == TraceAfter(m, t) + TraceAfter(RunTrace(m, t), u)
    decreases |t|
  {
    hide Exec, OpAfter, DistinctOutput;
    if t == [] {
      assert t + u == u;
    } else {
      AppendShape(t, u);
      RunTraceAppend(Exec(m, t[0]), t[1..], u);
      hide DistinctOutputs;
      assert TraceAfter(m, t + u) == [OpAfter(m, t[0])] + TraceAfter(Exec(m, t[0]), t[1..] + u);
      assert TraceAfter(m, t) == [OpAfter(m, t[0])] + TraceAfter(Exec(m, t[0]), t[1..]);
    }
  }

  lemma AppendShape(t: seq<AOp>, u: seq<AOp>)
    requires DistinctOutputs(t) && DistinctOutputs(u) && t != []
    ensures (t + u)[0] == t[0] && (t + u)[1..] == t[1..] + u
    ensures DistinctOutput(t[0]) && DistinctOutputs(t[1..]) && DistinctOutputs(t + u)
  {
    hide DistinctOutput;
  }

  lemma {:induction false} LaunchesRun(m: Memory, ks: seq<AKernel>)
    ensures DistinctOutputs(Launches(ks)) && RunTrace(m, Launches(ks)) == ExecKernels(m, ks)
    ensures TraceAfter(m, Launches(ks)) == Launches(ks)
    decreases |ks|
  {
    if ks == [] {
    } else {
      assert Launches(ks)[1..] == Launches(ks[1..]);
      LaunchesRun(ExecKernel(m, ks[0]), ks[1..]);
    }
  }

  class Device {
    var mem: Memory

    constructor (mem: Memory)
      ensures this.mem == mem
    {
      this.mem := mem;
    }
  }

  /** One recorded segment per graph, and a break function between consecutive segments. */
  class BreakableCUDAGraph {
    var segments: seq<seq<AKernel>>
    var breakFns: seq<ABreak>

    constructor ()
      ensures segments == [] && breakFns == []
    {
      segments, breakFns := [], [];
    }

    /** Replays every segment, running the break that follows it if there is one; each break copies its
        output into the object it captured, which may rebind that object's fields. */
    method Replay(device: Device)
      requires forall i :: 0 <= i < |breakFns| ==> Distinct(breakFns[i].output)
      modifies this, device
      ensures segments == old(segments) && |breakFns| == old(|breakFns|)
      ensures var recorded := old(Woven(segments, breakFns, |segments|));
        DistinctOutputs(recorded) && device.mem == RunTrace(old(device.mem), recorded) &&
        Woven(segments, breakFns, |segments|) == TraceAfter(old(device.mem), recorded)
      ensures forall i :: 0 <= i < |breakFns| ==> Distinct(breakFns[i].output)
    {
      hide ExecBreak, RunTrace, TraceAfter, ExecKernels, BreakAfter, Distinct;
      ghost var start, recorded := device.mem, breakFns;
      RunNothing(start);
      for i := 0 to |segments|
        invariant segments == old(segments) && |breakFns| == |recorded|
        invariant forall j :: i <= j < |breakFns| ==> breakFns[j] == recorded[j]
        invariant forall j :: 0 <= j < |breakFns| ==> Distinct(breakFns[j].output)
        invariant DistinctOutputs(Woven(segments, recorded, i))
        invariant device.mem == RunTrace(start, Woven(segments, recorded, i))
        invariant Woven(segments, breakFns, i) == TraceAfter(start, Woven(segments, recorded, i))
      {
        ghost var done := Woven(segments, recorded, i);
        LaunchesRun(device.mem, segments[i]);
        RunTraceAppend(start, done, Launches(segments[i]));
        device.mem := ExecKernels(device.mem, segments[i]);
        if i < |breakFns| {
          var b := breakFns[i];
          RunOne(device.mem, b);
          RunTraceAppend(start, done + Launches(segments[i]), [AEager(b)]);
          StillDistinct(device.mem, b);
          WovenBefore(segments, breakFns, i, BreakAfter(device.mem, b));
          breakFns := breakFns[i := BreakAfter(device.mem, b)];
          device.mem := ExecBreak(device.mem, b);
        } else {
          assert done + Launches(segments[i]) + [] == done + Launches(segments[i]);
        }
      }
    }
  }

  lemma RunNothing(m: Memory)
    ensures RunTrace(m, []) == m && TraceAfter(m, []) == []
  {
  }

  lemma RunOne(m: Memory, b: ABreak)
    requires Distinct(b.output)
    ensures DistinctOutputs([AEager(b)]) && RunTrace(m, [AEager(b)]) == ExecBreak(m, b)
    ensures TraceAfter(m, [AEager(b)]) == [AEager(BreakAfter(m, b))]
  {
    var t := [AEager(b)];
    assert DistinctOutput(t[0]);
    assert RunTrace(m, t) == RunTrace(Exec(m, t[0]), t[1..]);
    assert TraceAfter(m, t) == [OpAfter(m, t[0])] + TraceAfter(Exec(m, t[0]), t[1..]);
  }

  lemma StillDistinct(m: Memory, b: ABreak)
    requires Distinct(b.output)
    ensures Distinct(BreakAfter(m, b).output)
  {
    CopyTreeKeeps(b.output, b.fn(ContentsOf(m, b.args)));
  }

  /** A break is not among what was recorded before it. */
  lemma {:induction false} WovenBefore(segments: seq<seq<AKernel>>, breaks: seq<ABreak>, i: nat, b: ABreak)
    requires i <= |segments| && i < |breaks|
    ensures Woven(segments, breaks[i := b], i) == Woven(segments, breaks, i)
  {
    assert breaks[i := b][..i] == breaks[..i];
    WovenPrefix(segments, segments, breaks[i := b], breaks, i);
  }

  /** Memory after a break at capture: the stub's contents, or the body's writes and output. */
  function AfterCapturedBreak(m: Memory, b: ABreak, stub: Option<Tree<int>>): Memory
    requires Distinct(b.output)
  {
    if stub.Some? then CopyOutput(m, b.output, stub.value) else ExecBreak(m, b)
  }

  function AfterCapturedOp(m: Memory, op: AOp, stub: Option<Tree<int>>): Memory
    requires DistinctOutput(op)
  {
    if op.AEager? then AfterCapturedBreak(m, op.brk, stub) else m
  }

  /** Memory after capturing a trace: kernels are only recorded, breaks run once or are stubbed. */
  function CaptureRun(m: Memory, t: seq<AOp>, stubs: seq<Option<Tree<int>>>): Memory
    requires DistinctOutputs(t) && |stubs| == |t|
    decreases |t|
  {
    if t == [] then m
    else
      assert DistinctOutput(t[0]) && forall i :: 0 <= i < |t| - 1 ==> t[1..][i] == t[i + 1];
      CaptureRun(AfterCapturedOp(m, t[0], stubs[0]), t[1..], stubs[1..])
  }

  lemma CaptureNothing(m: Memory)
    ensures CaptureRun(m, [], []) == m
  {
  }

  lemma {:induction false} CaptureRunSnoc(m: Memory, t: seq<AOp>, stubs: seq<Option<Tree<int>>>, op: AOp,
                                          stub: Option<Tree<int>>)
    requires DistinctOutputs(t) && |stubs| == |t| && DistinctOutput(op)
    ensures DistinctOutputs(t + [op])
    ensures CaptureRun(m, t + [op], stubs + [stub]) == AfterCapturedOp(CaptureRun(m, t, stubs), op, stub)
    decreases |t|
  {
    hide DistinctOutput, AfterCapturedOp;
    if t == [] {
      assert t + [op] == [op] && stubs + [stub] == [stub] && [op][1..] == [] && [stub][1..] == [];
      CaptureNothing(AfterCapturedOp(m, op, stub));
    } else {
      assert DistinctOutput(t[0]) && forall i :: 0 <= i < |t| - 1 ==> t[1..][i] == t[i + 1];
      assert (t + [op])[1..] == t[1..] + [op] && (stubs + [stub])[1..] == stubs[1..] + [stub];
      CaptureRunSnoc(AfterCapturedOp(m, t[0], stubs[0]), t[1..], stubs[1..], op, stub);
    }
  }

  class BreakableCUDAGraphCapture {
    const graph: BreakableCUDAGraph
    const device: Device
    var currentGraph: Option<seq<AKernel>>

    constructor (graph: BreakableCUDAGraph, device: Device)
      ensures this.graph == graph && this.device == device && currentGraph == None
    {
      this.graph, this.device, currentGraph := graph, device, None;
    }

    /** Recording: t is what has been recorded so far, with one more segment under way than breaks. */
    ghost predicate Recording(t: seq<AOp>)
      reads this, graph
    {
      currentGraph.Some? && |graph.segments| == |graph.breakFns| &&
      t == Woven(graph.segments, graph.breakFns, |graph.segments|) + Launches(currentGraph.value)
    }

    method Enter()
      requires graph.segments == [] && graph.breakFns == []
      modifies this
      ensures Recording([])
    {
      BeginNewSegment();
      assert Launches([]) == [];
    }

    method BeginNewSegment()
      modifies this
      ensures currentGraph == Some([])
    {
      currentGraph := Some([]);
    }

    method EndCurrentSegment()
      requires currentGraph.Some?
      modifies this, graph
      ensures currentGraph == None && graph.breakFns == old(graph.breakFns)
      ensures graph.segments == old(graph.segments) + [old(currentGraph).value]
    {
      graph.segments := graph.segments + [currentGraph.value];
      currentGraph := None;
    }

    /** A kernel launched while capturing is recorded and not run. */
    method Launch(k: AKernel, ghost t: seq<AOp>)
      requires Recording(t)
      modifies this
      ensures Recording(t + [ALaunch(k)])
    {
      assert Launches(currentGraph.value + [k]) == Launches(currentGraph.value) + [ALaunch(k)];
      currentGraph := Some(currentGraph.value + [k]);
    }

    /** A break: close the segment, run the body (or its stub) once, record it, open the next segment. */
    method EagerOnGraph(b: ABreak, stub: Option<Tree<int>>, ghost t: seq<AOp>)
      requires Recording(t) && Distinct(b.output)
      modifies this, graph, device
      ensures Recording(t + [AEager(b)])
      ensures device.mem == AfterCapturedBreak(old(device.mem), b, stub)
      ensures |graph.segments| == old(|graph.segments|) + 1
    {
      hide ExecBreak, CopyOutput, Distinct;
      ghost var segments, breaks, open := graph.segments, graph.breakFns, currentGraph.value;
      EndCurrentSegment();
      device.mem := AfterCapturedBreak(device.mem, b, stub);
      graph.breakFns := graph.breakFns + [b];
      BeginNewSegment();
      WovenPrefix(segments, graph.segments, breaks, graph.breakFns, |segments|);
      assert graph.segments[|segments|] == open && graph.breakFns[|segments|] == b;
      assert Woven(graph.segments, graph.breakFns, |graph.segments|)
          == Woven(segments, breaks, |segments|) + Launches(open) + [AEager(b)];
      assert Launches([]) == [];
    }

    /** Leaving the context closes the last segment: exactly one more segment than breaks. */
    method Exit(ghost t: seq<AOp>)
      requires Recording(t)
      modifies this, graph
      ensures |graph.segments| == |graph.breakFns| + 1 && currentGraph == None
      ensures graph.breakFns == old(graph.breakFns)
      ensures t == Woven(graph.segments, graph.breakFns, |graph.segments|)
    {
      ghost var segments := graph.segments;
      EndCurrentSegment();
      WovenPrefix(segments, graph.segments, graph.breakFns, graph.breakFns, |segments|);
    }
  }

  lemma {:induction false} TraceSnoc(env: Env, ops: seq<Op>, places: seq<Tree<Cell>>, op: Op, place: Tree<Cell>)
    requires |places| == |ops|
    ensures Trace(env, ops + [op], places + [place])
         == Trace(env, ops, places) + [RecordOp(EnvAfter(env, ops, places), op, place)]
    ensures EnvAfter(env, ops + [op], places + [place]) == Bind(EnvAfter(env, ops, places), op, place)
    decreases |ops|
  {
    hide RecordOp, Bind;
    if ops == [] {
      assert ops + [op] == [op] && places + [place] == [place];
    } else {
      assert (ops + [op])[1..] == ops[1..] + [op] && (places + [place])[1..] == places[1..] + [place];
      TraceSnoc(Bind(env, ops[0], places[0]), ops[1..], places[1..], op, place);
    }
  }

  /** Captures a whole program. Which breaks were stubbed, and with what, leaves no mark on the recording. */
  method CaptureProgram(device: Device, env: Env, ops: seq<Op>, places: seq<Tree<Cell>>, stubs: seq<Option<Tree<int>>>,
                        ghost outs: set<Name>)
    returns (graph: BreakableCUDAGraph)
    requires |places| == |ops| == |stubs| && WellPlaced(env, ops, places, outs)
    modifies device
    ensures fresh(graph) && |graph.segments| == |graph.breakFns| + 1
    ensures Woven(graph.segments, graph.breakFns, |graph.segments|) == Trace(env, ops, places)
    ensures forall i :: 0 <= i < |graph.breakFns| ==> Distinct(graph.breakFns[i].output)
    ensures DistinctOutputs(Trace(env, ops, places))
    ensures device.mem == CaptureRun(old(device.mem), Trace(env, ops, places), stubs)
  {
    hide WellPlaced, RecordKernel, AfterCapturedBreak, CaptureRun, Bind, Distinct, RecordBody, Woven,
      BreakableCUDAGraphCapture.Recording;
    graph := new BreakableCUDAGraph();
    var capture := new BreakableCUDAGraphCapture(graph, device);
    capture.Enter();
    PlacedOutputsDistinct(env, ops, places, outs);
    CaptureNothing(device.mem);
    var current := env;
    for i := 0 to |ops|
      invariant fresh(graph) && fresh(capture) && capture.graph == graph && capture.device == device
      invariant current == EnvAfter(env, ops[..i], places[..i])
      invariant capture.Recording(Trace(env, ops[..i], places[..i]))
      invariant DistinctOutputs(Trace(env, ops[..i], places[..i]))
      invariant device.mem == CaptureRun(old(device.mem), Trace(env, ops[..i], places[..i]), stubs[..i])
    {
      ghost var done := Trace(env, ops[..i], places[..i]);
      assert stubs[..i + 1] == stubs[..i] + [stubs[i]];
      assert ops[..i + 1] == ops[..i] + [ops[i]] && places[..i + 1] == places[..i] + [places[i]];
      TraceSnoc(env, ops[..i], places[..i], ops[i], places[i]);
      TraceAt(env, ops, places, i);
      assert DistinctOutput(Trace(env, ops, places)[i]);
      CaptureRunSnoc(old(device.mem), done, stubs[..i], RecordOp(current, ops[i], places[i]), stubs[i]);
      match RecordOp(current, ops[i], places[i]) {
        case ALaunch(k) => capture.Launch(k, done);
        case AEager(b) =>
          capture.EagerOnGraph(b, stubs[i], done);
      }
      current := Bind(current, ops[i], places[i]);
    }
    assert ops[..|ops|] == ops && places[..|ops|] == places && stubs[..|ops|] == stubs;
    capture.Exit(Trace(env, ops, places));
    WovenBreaksDistinct(graph.segments, graph.breakFns, |graph.segments|);
  }

  lemma {:induction false} TraceAt(env: Env, ops: seq<Op>, places: seq<Tree<Cell>>, i: nat)
    requires |places| == |ops| && i < |ops|
    ensures Trace(env, ops, places)[i] == RecordOp(EnvAfter(env, ops[..i], places[..i]), ops[i], places[i])
    decreases i
  {
    hide RecordOp, Bind;
    if i == 0 {
    } else {
      assert ops[..i][1..] == ops[1..][..i - 1] && places[..i][1..] == places[1..][..i - 1];
      TraceAt(Bind(env, ops[0], places[0]), ops[1..], places[1..], i - 1);
    }
  }

  lemma {:induction false} WovenBreaksDistinct(segments: seq<seq<AKernel>>, breaks: seq<ABreak>, upTo: nat)
    requires upTo <= |segments| && DistinctOutputs(Woven(segments, breaks, upTo))
    ensures forall i :: 0 <= i < upTo && i < |breaks| ==> Distinct(breaks[i].output)
  {
    hide Distinct;
    if upTo > 0 {
      var t := Woven(segments, breaks, upTo);
      var before := Woven(segments, breaks, upTo - 1);
      forall i | 0 <= i < |before| ensures DistinctOutput(before[i]) {
        assert t[i] == before[i];
      }
      WovenBreaksDistinct(segments, breaks, upTo - 1);
      if upTo - 1 < |breaks| {
        assert t[|t| - 1] == AEager(breaks[upTo - 1]) && DistinctOutput(t[|t| - 1]);
      }
    }
  }

  /** Capture once, then for every round write new inputs and replay: every wanted name ends as after the
      same rounds run eagerly from what the static buffers held when the capture ended. */
  method CaptureThenReplay(device: Device, env: Env, ops: seq<Op>, places: seq<Tree<Cell>>,
                           stubs: seq<Option<Tree<int>>>,
                           loads: seq<seq<Kernel>>, ghost statics: set<Name>, ghost outs: set<Name>)
    returns (ghost captured: Memory)
    requires |places| == |ops| == |stubs| && WellPlaced(env, ops, places, outs)
    requires Needs(ops, outs) <= statics <= outs && statics <= env.Keys && NeverBound(ops, statics)
    requires ApartIn(env, statics)
    requires LoadsOk(env, statics, loads) && |loads| > 0
    modifies device
    ensures DistinctOutputs(Trace(env, ops, places))
    ensures captured == CaptureRun(old(device.mem), Trace(env, ops, places), stubs)
    ensures device.mem == ReplayRounds(captured, env, Trace(env, ops, places), loads)
    ensures Sim(outs, EnvAfter(env, ops, places), device.mem, EagerRounds(StaticsOf(captured, env), ops, loads))
  {
    hide WellPlaced, Needs, Addrs, Sim, StaticsOf, ExecKernels, RecordBody, LoadsOk, RunTrace, TraceAfter, Woven, Trace,
      Distinct, CaptureRun, DistinctOutputs;
    var graph := CaptureProgram(device, env, ops, places, stubs, outs);
    captured := device.mem;
    AnyMemoryHoldsItsStatics(env, statics, captured);
    ReplaysAreEager(env, ops, places, outs, statics, captured, StaticsOf(captured, env), loads);
    ghost var recorded := Trace(env, ops, places);
    var segments := graph.segments;
    for i := 0 to |loads|
      invariant fresh(graph) && graph.segments == segments
      invariant forall j :: 0 <= j < |graph.breakFns| ==> Distinct(graph.breakFns[j].output)
      invariant DistinctOutputs(Woven(segments, graph.breakFns, |segments|))
      invariant ReplayRounds(device.mem, env, Woven(segments, graph.breakFns, |segments|), loads[i..])
             == ReplayRounds(captured, env, recorded, loads)
    {
      assert loads[i..][0] == loads[i] && loads[i..][1..] == loads[i + 1..];
      ghost var before := Woven(segments, graph.breakFns, |segments|);
      device.mem := ExecKernels(device.mem, RecordBody(env, loads[i]));
      TraceAfterDistinct(device.mem, before);
      graph.Replay(device);
    }
  }

  // ---- What capture leaves alone -----------------------------------------------------------

  /** Names written in place by the bodies that run during capture: those of breaks without a stub. */
  ghost function CaptureWrites(ops: seq<Op>, stubs: seq<Option<Tree<int>>>): set<Name>
    requires |stubs| == |ops|
    decreases |ops|
  {
    if ops == [] then {}
    else
      (if ops[0].Break? && stubs[0].None? then KernelWrites(ops[0].body) else {}) +
      CaptureWrites(ops[1..], stubs[1..])
  }

  ghost function KernelWrites(ks: seq<Kernel>): set<Name> {
    set i | 0 <= i < |ks| :: ks[i].dst
  }

  lemma {:induction false} StaticIsNeeded(ops: seq<Op>, outs: set<Name>, n: Name)
    requires n in outs && NeverBound(ops, {n})
    ensures n in Needs(ops, outs)
    decreases |ops|
  {
    if ops == [] {
    } else {
      assert Binds(ops[0]) !! {n} && forall i :: 0 <= i < |ops| - 1 ==> ops[1..][i] == ops[i + 1];
      StaticIsNeeded(ops[1..], outs, n);
    }
  }

  /** Wanted names stay apart from each other when one is bound to a well-chosen place. */
  lemma BoundApart(env: Env, op: Op, place: Tree<Cell>, needed: set<Name>)
    requires ApartIn(env, (needed - Binds(op)) + Uses(op)) && OpPlaced(env, op, place, needed)
    ensures ApartIn(Bind(env, op, place), needed)
  {
    hide Addrs;
  }

  // ---- Which addresses a capture writes ----------------------------------------------------

  ghost function BodyAddrs(ks: seq<AKernel>): set<nat> {
    set i | 0 <= i < |ks| :: ks[i].at
  }

  /** Addresses a captured operation writes: a launch is only recorded, a break fills its output, and its body
      runs unless it is stubbed. */
  ghost function OpTouches(op: AOp, stubbed: bool): set<nat> {
    match op
    case ALaunch(_) => {}
    case AEager(b) => Addrs(b.output) + (if stubbed then {} else BodyAddrs(b.body))
  }

  ghost function CaptureTouches(t: seq<AOp>, which: seq<bool>): set<nat>
    requires |which| == |t|
    decreases |t|
  {
    if t == [] then {} else OpTouches(t[0], which[0]) + CaptureTouches(t[1..], which[1..])
  }

  /** Which breaks are stubbed. */
  function Which(stubs: seq<Option<Tree<int>>>): (which: seq<bool>)
    ensures |which| == |stubs|
  {
    seq(|stubs|, i requires 0 <= i < |stubs| => stubs[i].Some?)
  }

  /** Memories that agree everywhere else. */
  ghost predicate AgreeOff(m: Memory, m': Memory, s: set<nat>) {
    forall a: nat :: a !in s ==> Read(m, a) == Read(m', a)
  }

  lemma {:induction false} BodyFrame(m: Memory, ks: seq<AKernel>)
    ensures AgreeOff(m, ExecKernels(m, ks), BodyAddrs(ks))
    decreases |ks|
  {
    if ks == [] {
    } else {
      BodyFrame(ExecKernel(m, ks[0]), ks[1..]);
      assert ks[0].at in BodyAddrs(ks) && forall i :: 0 <= i < |ks| - 1 ==> ks[1..][i] == ks[i + 1];
      assert BodyAddrs(ks[1..]) <= BodyAddrs(ks);
    }
  }

  lemma OpFrame(m: Memory, op: AOp, stub: Option<Tree<int>>)
    requires DistinctOutput(op)
    ensures AgreeOff(m, AfterCapturedOp(m, op, stub), OpTouches(op, stub.Some?))
  {
    hide Addrs, Distinct, CopyOutput, BodyAddrs;
    if op.AEager? {
      var b := op.brk;
      BodyFrame(m, b.body);
      var v := if stub.Some? then stub.value else b.fn(ContentsOf(m, b.args));
      var before := if stub.Some? then m else ExecKernels(m, b.body);
      CopyIsLocal(before, before, b.output, v);
    }
  }

  lemma {:induction false} CaptureFrame(m: Memory, t: seq<AOp>, stubs: seq<Option<Tree<int>>>)
    requires DistinctOutputs(t) && |stubs| == |t|
    ensures AgreeOff(m, CaptureRun(m, t, stubs), CaptureTouches(t, Which(stubs)))
    decreases |t|
  {
    hide AfterCapturedOp, OpTouches, DistinctOutput;
    if t == [] {
    } else {
      assert DistinctOutput(t[0]) && forall i :: 0 <= i < |t| - 1 ==> t[1..][i] == t[i + 1];
      assert Which(stubs)[1..] == Which(stubs[1..]);
      OpFrame(m, t[0], stubs[0]);
      CaptureFrame(AfterCapturedOp(m, t[0], stubs[0]), t[1..], stubs[1..]);
    }
  }

  /** Kernels in place on other names miss a name. */
  lemma BodyMisses(env: Env, ks: seq<Kernel>, names: set<Name>, n: Name)
    requires ApartIn(env, names) && BodyUses(ks) <= names && BodyInPlace(env, ks) && n in names && n in env
    requires n !in KernelWrites(ks)
    ensures BodyAddrs(RecordBody(env, ks)) !! Addrs(env[n])
  {
    hide Addrs;
    forall i | 0 <= i < |ks| ensures RecordBody(env, ks)[i].at !in Addrs(env[n]) {
      assert InPlaceIn(env, ks[i]) && ks[i].dst in KernelWrites(ks);
      UsedInBody(ks, i);
      PlaceAddr(env[ks[i].dst]);
    }
  }

  lemma {:induction false} UsedInBody(ks: seq<Kernel>, i: nat)
    requires i < |ks|
    ensures KernelUses(ks[i]) <= BodyUses(ks)
    decreases i
  {
    hide KernelUses;
    if i > 0 {
      UsedInBody(ks[1..], i - 1);
    }
  }

  /** One captured operation misses a wanted name, unless its body runs and writes it. */
  lemma OpMisses(env: Env, op: Op, place: Tree<Cell>, needed: set<Name>, stubbed: bool, n: Name)
    requires ApartIn(env, (needed - Binds(op)) + Uses(op)) && OpPlaced(env, op, place, needed)
    requires n in needed && n in env && n !in Binds(op)
    requires op.Break? && !stubbed ==> n !in KernelWrites(op.body)
    ensures OpTouches(RecordOp(env, op, place), stubbed) !! Addrs(env[n])
  {
    hide Addrs, Distinct, Matches, KernelWrites;
    if op.Break? && !stubbed {
      BodyMisses(env, op.body, (needed - Binds(op)) + Uses(op), n);
    }
  }

  /** A capture misses a static name that no body it runs writes. */
  lemma {:induction false} CaptureMisses(env: Env, ops: seq<Op>, places: seq<Tree<Cell>>, outs: set<Name>,
                                         stubs: seq<Option<Tree<int>>>, n: Name)
    requires |places| == |ops| == |stubs| && WellPlaced(env, ops, places, outs) && ApartIn(env, Needs(ops, outs))
    requires n in outs && n in env && NeverBound(ops, {n}) && n !in CaptureWrites(ops, stubs)
    ensures CaptureTouches(Trace(env, ops, places), Which(stubs)) !! Addrs(env[n])
    decreases |ops|
  {
    hide OpPlaced, RecordOp, Addrs, Bind, Uses, KernelWrites, ApartIn, OpTouches;
    if ops == [] {
    } else {
      var op, place, rest := ops[0], places[0], ops[1..];
      assert Binds(op) !! {n} && forall i :: 0 <= i < |ops| - 1 ==> rest[i] == ops[i + 1];
      StaticIsNeeded(rest, outs, n);
      BoundApart(env, op, place, Needs(rest, outs));
      StaysBound(env, op, place, n);
      OpMisses(env, op, place, Needs(rest, outs), stubs[0].Some?, n);
      assert Trace(env, ops, places)[1..] == Trace(Bind(env, op, place), rest, places[1..]);
      assert Which(stubs)[1..] == Which(stubs[1..]);
      CaptureMisses(Bind(env, op, place), rest, places[1..], outs, stubs[1..], n);
    }
  }

  /** So it leaves such a name's contents alone. */
  lemma CaptureLeaves(env: Env, ops: seq<Op>, places: seq<Tree<Cell>>, outs: set<Name>, m: Memory,
                      stubs: seq<Option<Tree<int>>>, n: Name)
    requires |places| == |ops| == |stubs| && WellPlaced(env, ops, places, outs) && ApartIn(env, Needs(ops, outs))
    requires n in outs && n in env && NeverBound(ops, {n}) && n !in CaptureWrites(ops, stubs)
    ensures DistinctOutputs(Trace(env, ops, places))
    ensures Contents(CaptureRun(m, Trace(env, ops, places), stubs), env[n]) == Contents(m, env[n])
  {
    hide Addrs, Contents, CaptureRun, CaptureTouches, CaptureWrites, Trace, WellPlaced, DistinctOutputs, Needs;
    PlacedOutputsDistinct(env, ops, places, outs);
    CaptureMisses(env, ops, places, outs, stubs, n);
    CaptureFrame(m, Trace(env, ops, places), stubs);
    ContentsFrame(CaptureRun(m, Trace(env, ops, places), stubs), m, env[n]);
  }

  lemma StaysBound(env: Env, op: Op, place: Tree<Cell>, n: Name)
    requires n in env && n !in Binds(op)
    ensures n in Bind(env, op, place) && Bind(env, op, place)[n] == env[n]
  {
  }
}

/** The other breakable capture: one list of segments replayed in order, nested breaks absorbed into the
    enclosing eager segment, and a wrapper that captures once per batch descriptor. */
module VllmBreakable {
  import opened Wrappers
  import opened OutputTrees
  import opened GraphPrograms
  import opened BreakableGraph

  /** Kernels at the addresses that their tensors have in this call. Call is a decorated operation: its body works on
      tensors of the pass, and may call more. */
  datatype Op = Kernel(k: AKernel) | Call(body: seq<Op>)

  /** All kernels, in program order. */
  function Flatten(ops: seq<Op>): seq<AKernel> {
    if ops == [] then [] else OpKernels(ops[0]) + Flatten(ops[1..])
  }

  function OpKernels(op: Op): seq<AKernel> {
    match op
    case Kernel(k) => [k]
    case Call(body) => Flatten(body)
  }

  /** Decorated operations not inside another one. */
  function OuterCalls(ops: seq<Op>): nat {
    if ops == [] then 0 else (if ops[0].Call? then 1 else 0) + OuterCalls(ops[1..])
  }

  datatype Segment = Graph(kernels: seq<AKernel>) | Eager(body: seq<Op>)

  function Kernels(segment: Segment): seq<AKernel> {
    match segment
    case Graph(ks) => ks
    case Eager(body) => Flatten(body)
  }

  function AllKernels(segments: seq<Segment>): seq<AKernel> {
    if segments == [] then [] else AllKernels(segments[..|segments| - 1]) + Kernels(segments[|segments| - 1])
  }

  lemma AllKernelsSnoc(segments: seq<Segment>, segment: Segment)
    ensures AllKernels(segments + [segment]) == AllKernels(segments) + Kernels(segment)
  {
    assert (segments + [segment])[..|segments|] == segments;
  }

  lemma {:induction false} ExecAppend(m: Memory, a: seq<AKernel>, b: seq<AKernel>)
    ensures ExecKernels(m, a + b) == ExecKernels(ExecKernels(m, a), b)
    decreases |a|
  {
    if a == [] {
      assert a + b == b;
    } else {
      assert (a + b)[0] == a[0] && (a + b)[1..] == a[1..] + b;
      ExecAppend(ExecKernel(m, a[0]), a[1..], b);
    }
  }

  /** Memory after a captured run: kernels are only recorded, outer calls run (unless all is captured). */
  function AfterCapture(m: Memory, ops: seq<Op>, full: bool): Memory
    decreases |ops|
  {
    if ops == [] then m else AfterCapture(AfterRecordedOp(m, ops[0], full), ops[1..], full)
  }

  function AfterRecordedOp(m: Memory, op: Op, full: bool): Memory {
    if op.Call? && !full then ExecKernels(m, Flatten(op.body)) else m
  }

  lemma {:induction false} FullCaptureRunsNothing(m: Memory, ops: seq<Op>)
    ensures AfterCapture(m, ops, true) == m
    decreases |ops|
  {
    if ops == [] {
    } else {
      FullCaptureRunsNothing(m, ops[1..]);
    }
  }

  /** Graph segments at even places, eager ones at odd places. */
  predicate Alternates(segments: seq<Segment>) {
    forall i :: 0 <= i < |segments| ==> (segments[i].Graph? <==> i % 2 == 0)
  }

  class Thread {
    var active: BreakableCUDAGraphCapture?

    constructor ()
      ensures active == null
    {
      active := null;
    }
  }

  class BreakableCUDAGraphCapture {
    var segments: seq<Segment>
    var numGraphs: nat
    var numEagerBreaks: nat
    var currentGraph: Option<seq<AKernel>>
    var capturing: bool

    ghost predicate Valid()
      reads this
    {
      Alternates(segments) && numGraphs + numEagerBreaks == |segments| && (capturing <==> currentGraph.Some?) &&
      (capturing ==> numGraphs == numEagerBreaks)
    }

    /** Everything recorded so far. */
    ghost function Recorded(): seq<AKernel>
      reads this
    {
      AllKernels(segments) + (if currentGraph.Some? then currentGraph.value else [])
    }

    constructor ()
      ensures Valid() && segments == [] && !capturing && numEagerBreaks == 0 && Recorded() == []
    {
      segments, numGraphs, numEagerBreaks, currentGraph, capturing := [], 0, 0, None, false;
    }

    /** Only one capture may be active per thread. */
    method Enter(thread: Thread) returns (ok: bool)
      requires Valid() && !capturing && segments == []
      modifies this, thread
      ensures ok <==> old(thread.active) == null
      ensures if ok then thread.active == this && Valid() && capturing && Recorded() == [] && numEagerBreaks == 0
              else thread.active == old(thread.active) && !capturing && segments == []
    {
      if thread.active != null {
        return false;
      }
      thread.active := this;
      BeginSegment();
      return true;
    }

    method Exit(thread: Thread)
      requires Valid() && capturing
      modifies this, thread
      ensures thread.active == null && Valid() && !capturing
      ensures Recorded() == old(Recorded()) && AllKernels(segments) == Recorded()
      ensures numEagerBreaks == old(numEagerBreaks) && numGraphs == numEagerBreaks + 1
      ensures |segments| == 2 * numEagerBreaks + 1 && segments[0].Graph? && segments[|segments| - 1].Graph?
    {
      EndSegment();
      thread.active := null;
    }

    method BeginSegment()
      requires Valid() && !capturing && numGraphs == numEagerBreaks
      modifies this
      ensures Valid() && capturing && Recorded() == old(Recorded()) && segments == old(segments)
      ensures numGraphs == old(numGraphs) && numEagerBreaks == old(numEagerBreaks)
    {
      currentGraph, capturing := Some([]), true;
    }

    method EndSegment()
      requires Valid()
      modifies this
      ensures !capturing && numEagerBreaks == old(numEagerBreaks) && Valid()
      ensures Recorded() == old(Recorded()) == AllKernels(segments)
      ensures old(capturing) ==> numGraphs == numEagerBreaks + 1
    {
      if !capturing {
        return;
      }
      AllKernelsSnoc(segments, Graph(currentGraph.value));
      segments := segments + [Graph(currentGraph.value)];
      numGraphs := numGraphs + 1;
      currentGraph, capturing := None, false;
    }

    /** Close the segment, run the operation eagerly, record it, open the next segment. */
    method AddEager(device: Device, body: seq<Op>, full: bool)
      requires Valid() && capturing
      modifies this, device
      ensures Valid() && capturing && Recorded() == old(Recorded()) + Flatten(body)
      ensures numEagerBreaks == old(numEagerBreaks) + 1
      ensures device.mem == ExecKernels(old(device.mem), Flatten(body))
      decreases body, 1
    {
      hide ExecKernels, Flatten;
      EndSegment();
      RunModel(device, body, full);
      AllKernelsSnoc(segments, Eager(body));
      segments := segments + [Eager(body)];
      numEagerBreaks := numEagerBreaks + 1;
      BeginSegment();
    }

    /** One operation under this capture: a decorated call is a break only while a segment is recording
        and the pass is not captured as a whole. */
    method RunOp(device: Device, op: Op, full: bool)
      requires Valid()
      modifies this, device
      ensures Valid() && capturing == old(capturing)
      ensures capturing ==> Recorded() == old(Recorded()) + OpKernels(op)
      ensures capturing ==> numEagerBreaks == old(numEagerBreaks) + if op.Call? && !full then 1 else 0
      ensures capturing ==> device.mem == AfterRecordedOp(old(device.mem), op, full)
      ensures !capturing ==> device.mem == ExecKernels(old(device.mem), OpKernels(op)) && unchanged(this)
      decreases op, 2
    {
      hide ExecKernels, Flatten, AfterCapture, OuterCalls, AllKernels, Alternates;
      match op {
        case Kernel(k) =>
          ExecOne(device.mem, k);
          if capturing {
            currentGraph := Some(currentGraph.value + [k]);
          } else {
            device.mem := ExecKernel(device.mem, k);
          }
        case Call(body) =>
          if !capturing || full {
            RunModel(device, body, full);
            FullRuns(old(device.mem), body, full);
          } else {
            AddEager(device, body, full);
          }
      }
    }

    /** Runs a model under this capture. */
    method RunModel(device: Device, ops: seq<Op>, full: bool)
      requires Valid()
      modifies this, device
      ensures Valid() && capturing == old(capturing)
      ensures capturing ==> Recorded() == old(Recorded()) + Flatten(ops)
      ensures capturing ==> numEagerBreaks == old(numEagerBreaks) + if full then 0 else OuterCalls(ops)
      ensures capturing ==> device.mem == AfterCapture(old(device.mem), ops, full)
      ensures !capturing ==> device.mem == ExecKernels(old(device.mem), Flatten(ops)) && unchanged(this)
      decreases ops, 0
    {
      hide ExecKernels, OpKernels, AfterRecordedOp, Valid, Recorded;
      NoKernels(device.mem);
      if ops == [] {
        return;
      }
      ExecAppend(device.mem, OpKernels(ops[0]), Flatten(ops[1..]));
      RunOp(device, ops[0], full);
      RunModel(device, ops[1..], full);
    }

    /** Calls every segment in order; breaks run outside any capture. */
    method Replay(device: Device)
      requires Valid() && !capturing
      modifies device
      ensures device.mem == ExecKernels(old(device.mem), AllKernels(segments))
    {
      hide ExecKernels, Kernels;
      NoKernels(device.mem);
      for i := 0 to |segments|
        invariant device.mem == ExecKernels(old(device.mem), AllKernels(segments[..i]))
      {
        assert segments[..i + 1] == segments[..i] + [segments[i]];
        AllKernelsSnoc(segments[..i], segments[i]);
        ExecAppend(old(device.mem), AllKernels(segments[..i]), Kernels(segments[i]));
        device.mem := ExecKernels(device.mem, Kernels(segments[i]));
      }
      assert segments[..|segments|] == segments;
    }
  }

  lemma FullRuns(m: Memory, ops: seq<Op>, full: bool)
    ensures full ==> AfterCapture(m, ops, full) == m
  {
    if full {
      FullCaptureRunsNothing(m, ops);
    }
  }

  lemma ExecOne(m: Memory, k: AKernel)
    ensures ExecKernels(m, [k]) == ExecKernel(m, k)
  {
    assert [k][1..] == [];
    assert ExecKernels(m, [k]) == ExecKernels(ExecKernel(m, k), []);
  }

  lemma NoKernels(m: Memory)
    ensures ExecKernels(m, []) == m
  {
  }

  // ---- The wrapper -------------------------------------------------------------------------

  datatype Mode = NONE | PIECEWISE | FULL

  datatype Context = Context(descriptor: nat, mode: Mode)

  /** Which way a call goes. */
  datatype Route = RanEagerly | CapturedNow | Replayed

  class BreakableCUDAGraphWrapper {
    /** The model's pass for a descriptor, given the tensors that this very call allocates. */
    const runnable: (nat, seq<Tree<Cell>>) -> seq<Op>
    const runtimeMode: Option<Mode>
    var entries: map<nat, BreakableCUDAGraphCapture>
    /** The tensors each captured call allocated. */
    ghost var places: map<nat, seq<Tree<Cell>>>

    constructor (runnable: (nat, seq<Tree<Cell>>) -> seq<Op>, runtimeMode: Option<Mode>)
      ensures this.runnable == runnable && this.runtimeMode == runtimeMode && entries == map[] && Valid()
    {
      this.runnable, this.runtimeMode := runnable, runtimeMode;
      entries, places := map[], map[];
    }

    /** Every stored capture is complete and holds exactly its descriptor's pass over the tensors it allocated. */
    ghost predicate Valid()
      reads this, entries.Values
    {
      forall d :: d in entries ==>
        var e := entries[d];
        !e.capturing && e.Valid() && d in places && AllKernels(e.segments) == Flatten(runnable(d, places[d]))
    }

    /** Whether a call is captured or replayed rather than run eagerly. */
    predicate Dispatches(context: Option<Context>) {
      context.Some? && context.value.mode != NONE && (runtimeMode.Some? ==> context.value.mode == runtimeMode.value)
    }

    /** Eager without a matching context, over the tensors this call allocates; the first matching call per
        descriptor captures its allocation, and later ones replay over that one. */
    method Invoke(thread: Thread, device: Device, context: Option<Context>, descriptor: nat, given: seq<Tree<Cell>>)
        returns (path: Route)
      requires Valid() && thread.active == null
      requires context.Some? ==> context.value.descriptor == descriptor
      modifies this, thread, device
      ensures Valid() && thread.active == null
      ensures path == if !Dispatches(context) then RanEagerly
                      else if descriptor in old(entries) then Replayed else CapturedNow
      ensures path == RanEagerly <==> context.None? || context.value.mode == NONE ||
                                      (runtimeMode.Some? && context.value.mode != runtimeMode.value)
      ensures path != CapturedNow ==> entries == old(entries) && places == old(places)
      ensures path == RanEagerly ==>
        device.mem == ExecKernels(old(device.mem), Flatten(runnable(descriptor, given)))
      ensures path == Replayed ==> descriptor in places
      ensures path == Replayed ==>
        device.mem == ExecKernels(old(device.mem), Flatten(runnable(descriptor, places[descriptor])))
      ensures path == CapturedNow ==> CapturedOnce(descriptor, given, context.value.mode == FULL)
      ensures path == CapturedNow ==>
        device.mem == AfterCapture(old(device.mem), runnable(descriptor, given), context.value.mode == FULL)
    {
      hide Flatten, ExecKernels, AllKernels, AfterCapture, OuterCalls, BreakableCUDAGraphCapture.Valid,
        BreakableCUDAGraphCapture.Recorded;
      if !Dispatches(context) {
        RunEagerly(device, runnable(descriptor, given));
        return RanEagerly;
      }
      if descriptor in entries {
        entries[descriptor].Replay(device);
        return Replayed;
      }
      Capture(thread, device, descriptor, given, context.value.mode == FULL);
      return CapturedNow;
    }

    /** The model recorded over the tensors of this call, and stored. */
    method Capture(thread: Thread, device: Device, descriptor: nat, given: seq<Tree<Cell>>, full: bool)
      requires Valid() && thread.active == null && descriptor !in entries
      modifies this, thread, device
      ensures Valid() && thread.active == null && CapturedOnce(descriptor, given, full)
      ensures device.mem == AfterCapture(old(device.mem), runnable(descriptor, given), full)
    {
      hide Flatten, AllKernels, AfterCapture, OuterCalls, Alternates, BreakableCUDAGraphCapture.Valid;
      var capture := CaptureModel(thread, device, runnable(descriptor, given), full);
      entries, places := entries[descriptor := capture], places[descriptor := given];
    }

    /** The new entry alternates graphs and one eager segment per outer call, nested calls absorbed. */
    twostate predicate CapturedOnce(descriptor: nat, given: seq<Tree<Cell>>, full: bool)
      reads this, entries.Values
    {
      descriptor in entries && entries == old(entries)[descriptor := entries[descriptor]] &&
      places == old(places)[descriptor := given] &&
      Alternates(entries[descriptor].segments) &&
      entries[descriptor].numEagerBreaks == (if full then 0 else OuterCalls(runnable(descriptor, given))) &&
      entries[descriptor].numGraphs == entries[descriptor].numEagerBreaks + 1
    }
  }

  /** One capture of a whole pass. */
  method CaptureModel(thread: Thread, device: Device, ops: seq<Op>, full: bool)
      returns (capture: BreakableCUDAGraphCapture)
    requires thread.active == null
    modifies thread, device
    ensures fresh(capture) && thread.active == null && capture.Valid() && !capture.capturing
    ensures AllKernels(capture.segments) == Flatten(ops) && Alternates(capture.segments)
    ensures capture.numEagerBreaks == (if full then 0 else OuterCalls(ops))
    ensures capture.numGraphs == capture.numEagerBreaks + 1
    ensures device.mem == AfterCapture(old(device.mem), ops, full)
  {
    hide Flatten, ExecKernels, AllKernels, AfterCapture, OuterCalls, Alternates;
    capture := new BreakableCUDAGraphCapture();
    var entered := capture.Enter(thread);
    capture.RunModel(device, ops, full);
    assert capture.Recorded() == Flatten(ops);
    capture.Exit(thread);
  }

  /** The model outside any capture. */
  method RunEagerly(device: Device, ops: seq<Op>)
    modifies device
    ensures device.mem == ExecKernels(old(device.mem), Flatten(ops))
  {
    if ops == [] {
      return;
    }
    ExecAppend(device.mem, OpKernels(ops[0]), Flatten(ops[1..]));
    match ops[0] {
      case Kernel(k) =>
        ExecOne(device.mem, k);
        device.mem := ExecKernel(device.mem, k);
      case Call(body) => RunEagerly(device, body);
    }
    RunEagerly(device, ops[1..]);
  }

  // ---- The pass by its tensors' names ------------------------------------------------------

  /** Over these tensors the pass is this program of named ones, none of them laid over one still wanted. */
  ghost predicate IsPass(ops: seq<Op>, env: Env, named: seq<GraphPrograms.Op>, places: seq<Tree<Cell>>, outs: set<Name>)
    requires |places| == |named|
  {
    Launches(Flatten(ops)) == Trace(env, named, places) && WellPlaced(env, named, places, outs)
  }

  /** One call on new inputs, wherever its tensors are. */
  lemma CallIsEager(ops: seq<Op>, env: Env, named: seq<GraphPrograms.Op>, places: seq<Tree<Cell>>, outs: set<Name>,
                    statics: set<Name>, m: Memory, store: Store, load: seq<GraphPrograms.Kernel>)
    requires |places| == |named| && IsPass(ops, env, named, places, outs) && Sim(statics, env, m, store)
    requires Needs(named, outs) <= statics <= outs && statics <= env.Keys && NeverBound(named, statics)
    requires BodyInPlace(env, load) && BodyUses(load) <= statics
    ensures var m' := ExecKernels(ExecKernels(m, RecordBody(env, load)), Flatten(ops));
            var store' := RunEager(RunKernels(store, load), named);
            Sim(outs, EnvAfter(env, named, places), m', store') && Sim(statics, env, m', store')
  {
    hide WellPlaced, Needs, Sim, ExecKernels, RecordBody, RunTrace, TraceAfter, Trace, Flatten, DistinctOutputs,
      Launches, EnvAfter, RunEager, RunKernels, NeverBound, BodyInPlace, BodyUses;
    RoundIsEager(env, named, places, outs, statics, m, store, load);
    LaunchesRun(ExecKernels(m, RecordBody(env, load)), Flatten(ops));
    SimStatics(env, named, places, outs, statics, ExecKernels(ExecKernels(m, RecordBody(env, load)), Flatten(ops)),
               RunEager(RunKernels(store, load), named));
  }

  /** Once a descriptor is captured, any number of calls on any new inputs, each dispatched its own way, leaves every
      wanted tensor of the last call as the same number of eager runs of the named program does. Call i works on the
      tensors each[i]: the captured ones if it is replayed, any of its own if it runs eagerly. */
  method InvokeRounds(wrapper: BreakableCUDAGraphWrapper, thread: Thread, device: Device,
                      contexts: seq<Option<Context>>, each: seq<seq<Tree<Cell>>>, descriptor: nat, env: Env,
                      named: seq<GraphPrograms.Op>, loads: seq<seq<GraphPrograms.Kernel>>, ghost statics: set<Name>,
                      ghost outs: set<Name>)
    requires wrapper.Valid() && thread.active == null && descriptor in wrapper.entries
    requires |contexts| == |each| == |loads| > 0 && forall i :: 0 <= i < |each| ==> |each[i]| == |named|
    requires forall i :: 0 <= i < |contexts| && contexts[i].Some? ==> contexts[i].value.descriptor == descriptor
    requires forall i :: 0 <= i < |each| ==> IsPass(wrapper.runnable(descriptor, each[i]), env, named, each[i], outs)
    requires forall i :: 0 <= i < |each| && wrapper.Dispatches(contexts[i]) ==> each[i] == wrapper.places[descriptor]
    requires Needs(named, outs) <= statics <= outs && statics <= env.Keys && NeverBound(named, statics)
    requires ApartIn(env, statics) && LoadsOk(env, statics, loads)
    modifies wrapper, thread, device
    ensures wrapper.Valid() && wrapper.places == old(wrapper.places)
    ensures Sim(outs, EnvAfter(env, named, each[|each| - 1]), device.mem,
                EagerRounds(StaticsOf(old(device.mem), env), named, loads))
  {
    hide WellPlaced, Needs, Sim, StaticsOf, ExecKernels, RecordBody, Trace, Flatten, Launches, EnvAfter, RunEager,
      RunKernels, NeverBound, BodyInPlace, BodyUses, ApartIn, AllKernels, IsPass;
    ghost var start := StaticsOf(device.mem, env);
    AnyMemoryHoldsItsStatics(env, statics, device.mem);
    ghost var store := start;
    for i := 0 to |loads|
      invariant wrapper.Valid() && thread.active == null && descriptor in wrapper.entries
      invariant wrapper.places == old(wrapper.places)
      invariant Sim(statics, env, device.mem, store)
      invariant EagerRounds(store, named, loads[i..]) == EagerRounds(start, named, loads)
      invariant i > 0 ==> Sim(outs, EnvAfter(env, named, each[i - 1]), device.mem, store)
    {
      assert loads[i..][0] == loads[i] && loads[i..][1..] == loads[i + 1..];
      assert BodyInPlace(env, loads[i]) && BodyUses(loads[i]) <= statics;
      CallIsEager(wrapper.runnable(descriptor, each[i]), env, named, each[i], outs, statics, device.mem, store,
                  loads[i]);
      device.mem := ExecKernels(device.mem, RecordBody(env, loads[i]));
      var path := wrapper.Invoke(thread, device, contexts[i], descriptor, each[i]);
      store := RunEager(RunKernels(store, loads[i]), named);
    }
  }
}

/** A forward pass as a program of kernels and breaks: what it means when run eagerly, the addressed trace
    that a capture records, and why replaying the trace is the eager run. */
module GraphPrograms {
  import opened OutputTrees

  type Name = nat

  /** A tensor operation: a new tensor, or one overwritten in place. */
  datatype Kernel = Kernel(dst: Name, inPlace: bool, srcs: seq<Name>, fn: seq<Tree<int>> -> int)

  /** A break's body runs kernels in place and returns an output computed from its arguments. */
  datatype Op =
    | Launch(kernel: Kernel)
    | Break(dst: Name, args: seq<Name>, body: seq<Kernel>, fn: seq<Tree<int>> -> Tree<int>)

  // ---- Eager meaning, by name --------------------------------------------------------------

  type Store = map<Name, Tree<int>>

  /** What names stand for. */
  function Named<T>(bound: map<Name, Tree<T>>, names: seq<Name>): (v: seq<Tree<T>>)
    ensures |v| == |names|
  {
    seq(|names|, i requires 0 <= i < |names| => if names[i] in bound then bound[names[i]] else Tuple([]))
  }

  function RunKernel(store: Store, k: Kernel): Store {
    store[k.dst := Tensor(k.fn(Named(store, k.srcs)))]
  }

  function RunKernels(store: Store, ks: seq<Kernel>): Store
    decreases |ks|
  {
    if ks == [] then store else RunKernels(RunKernel(store, ks[0]), ks[1..])
  }

  function RunOp(store: Store, op: Op): Store {
    match op
    case Launch(k) => RunKernel(store, k)
    case Break(dst, args, body, fn) => RunKernels(store, body)[dst := fn(Named(store, args))]
  }

  function RunEager(store: Store, ops: seq<Op>): Store
    decreases |ops|
  {
    if ops == [] then store else RunEager(RunOp(store, ops[0]), ops[1..])
  }

  // ---- What a capture records --------------------------------------------------------------

  datatype AKernel = AKernel(at: nat, srcs: seq<Tree<Cell>>, fn: seq<Tree<int>> -> int)

  /** A recorded break: its captured output object, which replays copy into, and its arguments. */
  datatype ABreak = ABreak(output: Tree<Cell>, args: seq<Tree<Cell>>, body: seq<AKernel>,
                           fn: seq<Tree<int>> -> Tree<int>)

  datatype AOp = ALaunch(kernel: AKernel) | AEager(brk: ABreak)

  type Env = map<Name, Tree<Cell>>

  /** A tensor at a captured address. */
  predicate IsPlace(t: Tree<Cell>) {
    t.Tensor? && t.at.Captured?
  }

  /** Address a kernel writes: where its tensor already is, or the new place. */
  function Target(env: Env, k: Kernel, place: Tree<Cell>): nat {
    var t := if k.inPlace && k.dst in env then env[k.dst] else place;
    if IsPlace(t) then t.at.address else 0
  }

  function RecordKernel(env: Env, k: Kernel, place: Tree<Cell>): AKernel {
    AKernel(Target(env, k, place), Named(env, k.srcs), k.fn)
  }

  function RecordBody(env: Env, ks: seq<Kernel>): (r: seq<AKernel>)
    ensures |r| == |ks|
  {
    seq(|ks|, i requires 0 <= i < |ks| => RecordKernel(env, ks[i], Tuple([])))
  }

  function RecordOp(env: Env, op: Op, place: Tree<Cell>): AOp {
    match op
    case Launch(k) => ALaunch(RecordKernel(env, k, place))
    case Break(_, args, body, fn) => AEager(ABreak(place, Named(env, args), RecordBody(env, body), fn))
  }

  function Bind(env: Env, op: Op, place: Tree<Cell>): Env {
    match op
    case Launch(k) => if k.inPlace then env else env[k.dst := place]
    case Break(dst, _, _, _) => env[dst := place]
  }

  /** The trace: each operation at the addresses its names have when it is reached. */
  function Trace(env: Env, ops: seq<Op>, places: seq<Tree<Cell>>): (t: seq<AOp>)
    requires |places| == |ops|
    ensures |t| == |ops|
    decreases |ops|
  {
    if ops == [] then []
    else [RecordOp(env, ops[0], places[0])] + Trace(Bind(env, ops[0], places[0]), ops[1..], places[1..])
  }

  function EnvAfter(env: Env, ops: seq<Op>, places: seq<Tree<Cell>>): Env
    requires |places| == |ops|
    decreases |ops|
  {
    if ops == [] then env else EnvAfter(Bind(env, ops[0], places[0]), ops[1..], places[1..])
  }

  // ---- Replay, by address ------------------------------------------------------------------

  function ContentsOf(m: Memory, ts: seq<Tree<Cell>>): (v: seq<Tree<int>>)
    ensures |v| == |ts|
  {
    seq(|ts|, i requires 0 <= i < |ts| => Contents(m, ts[i]))
  }

  function ExecKernel(m: Memory, k: AKernel): Memory {
    m[k.at := k.fn(ContentsOf(m, k.srcs))]
  }

  function ExecKernels(m: Memory, ks: seq<AKernel>): Memory
    decreases |ks|
  {
    if ks == [] then m else ExecKernels(ExecKernel(m, ks[0]), ks[1..])
  }

  /** The break runs on its captured arguments, and its fresh output is copied into the captured one. */
  function ExecBreak(m: Memory, b: ABreak): Memory
    requires Distinct(b.output)
  {
    CopyOutput(ExecKernels(m, b.body), b.output, b.fn(ContentsOf(m, b.args)))
  }

  /** The break with its captured object as the copy leaves it. */
  function BreakAfter(m: Memory, b: ABreak): ABreak {
    b.(output := CopyTree(b.output, b.fn(ContentsOf(m, b.args))))
  }

  ghost predicate DistinctOutput(op: AOp) {
    op.AEager? ==> Distinct(op.brk.output)
  }

  ghost predicate DistinctOutputs(t: seq<AOp>) {
    forall i :: 0 <= i < |t| ==> DistinctOutput(t[i])
  }

  function Exec(m: Memory, op: AOp): Memory
    requires DistinctOutput(op)
  {
    match op
    case ALaunch(k) => ExecKernel(m, k)
    case AEager(b) => ExecBreak(m, b)
  }

  function OpAfter(m: Memory, op: AOp): AOp {
    match op
    case ALaunch(_) => op
    case AEager(b) => AEager(BreakAfter(m, b))
  }

  /** The trace as a replay from m leaves it. */
  function TraceAfter(m: Memory, t: seq<AOp>): (r: seq<AOp>)
    requires DistinctOutputs(t)
    ensures |r| == |t|
    decreases |t|
  {
    if t == [] then []
    else
      assert DistinctOutput(t[0]) && forall i :: 0 <= i < |t| - 1 ==> t[1..][i] == t[i + 1];
      [OpAfter(m, t[0])] + TraceAfter(Exec(m, t[0]), t[1..])
  }

  lemma {:induction false} TraceAfterDistinct(m: Memory, t: seq<AOp>)
    requires DistinctOutputs(t)
    ensures DistinctOutputs(TraceAfter(m, t))
    decreases |t|
  {
    hide Exec, Distinct;
    if t == [] {
    } else {
      assert DistinctOutput(t[0]) && forall i :: 0 <= i < |t| - 1 ==> t[1..][i] == t[i + 1];
      TraceAfterDistinct(Exec(m, t[0]), t[1..]);
      if t[0].AEager? {
        CopyTreeKeeps(t[0].brk.output, t[0].brk.fn(ContentsOf(m, t[0].brk.args)));
      }
    }
  }

  function RunTrace(m: Memory, t: seq<AOp>): Memory
    requires DistinctOutputs(t)
    decreases |t|
  {
    if t == [] then m
    else
      assert DistinctOutput(t[0]) && forall i :: 0 <= i < |t| - 1 ==> t[1..][i] == t[i + 1];
      RunTrace(Exec(m, t[0]), t[1..])
  }

  // ---- What the allocator owes -------------------------------------------------------------

  ghost function KernelUses(k: Kernel): set<Name> {
    (set n | n in k.srcs) + (if k.inPlace then {k.dst} else {})
  }

  ghost function BodyUses(ks: seq<Kernel>): set<Name>
    decreases |ks|
  {
    if ks == [] then {} else KernelUses(ks[0]) + BodyUses(ks[1..])
  }

  ghost function Uses(op: Op): set<Name> {
    match op
    case Launch(k) => KernelUses(k)
    case Break(_, args, body, _) => (set n | n in args) + BodyUses(body)
  }

  ghost function Binds(op: Op): set<Name> {
    match op
    case Launch(k) => if k.inPlace then {} else {k.dst}
    case Break(dst, _, _, _) => {dst}
  }

  /** Names whose tensors are still wanted before ops: read by them, or wanted at the end. */
  ghost function Needs(ops: seq<Op>, outs: set<Name>): set<Name>
    decreases |ops|
  {
    if ops == [] then outs else (Needs(ops[1..], outs) - Binds(ops[0])) + Uses(ops[0])
  }

  /** Allocation never hands out an address of a tensor that is still wanted (it may reuse any other), a
      break's body works in place, and a break's output always has the structure that was captured. */
  ghost predicate WellPlaced(env: Env, ops: seq<Op>, places: seq<Tree<Cell>>, outs: set<Name>)
    requires |places| == |ops|
    decreases |ops|
  {
    ops == [] ||
    (OpPlaced(env, ops[0], places[0], Needs(ops[1..], outs)) &&
     WellPlaced(Bind(env, ops[0], places[0]), ops[1..], places[1..], outs))
  }

  ghost predicate OpPlaced(env: Env, op: Op, place: Tree<Cell>, needed: set<Name>) {
    Distinct(place) &&
    (forall n :: n in needed && n !in Binds(op) && n in env && Binds(op) != {} ==> Addrs(place) !! Addrs(env[n])) &&
    match op
    case Launch(k) => if k.inPlace then k.dst in env && IsPlace(env[k.dst]) else IsPlace(place)
    case Break(_, _, body, fn) => BodyInPlace(env, body) && forall v :: Matches(place, fn(v))
  }

  ghost predicate BodyInPlace(env: Env, ks: seq<Kernel>) {
    forall i :: 0 <= i < |ks| ==> InPlaceIn(env, ks[i])
  }

  ghost predicate InPlaceIn(env: Env, k: Kernel) {
    k.inPlace && k.dst in env && IsPlace(env[k.dst])
  }

  // ---- Replay simulates the eager run ------------------------------------------------------

  /** The wanted names hold, at their captured addresses, what they hold in the eager run. */
  ghost predicate Sim(needed: set<Name>, env: Env, m: Memory, store: Store) {
    (forall n :: n in needed ==> Holds(env, m, store, n)) &&
    forall n, n' :: n in needed && n' in needed && n != n' && n in env && n' in env ==> Addrs(env[n]) !! Addrs(env[n'])
  }

  ghost predicate Holds(env: Env, m: Memory, store: Store, n: Name) {
    n in env && n in store && Contents(m, env[n]) == store[n]
  }

  lemma ValuesHeld(needed: set<Name>, env: Env, m: Memory, store: Store, names: seq<Name>)
    requires Sim(needed, env, m, store) && forall i :: 0 <= i < |names| ==> names[i] in needed
    ensures ContentsOf(m, Named(env, names)) == Named(store, names)
  {
    hide Contents;
    forall i | 0 <= i < |names| ensures ContentsOf(m, Named(env, names))[i] == Named(store, names)[i] {
      assert Holds(env, m, store, names[i]);
    }
  }

  /** A kernel in place. */
  lemma InPlaceSim(needed: set<Name>, env: Env, m: Memory, store: Store, k: Kernel, place: Tree<Cell>)
    requires Sim(needed, env, m, store) && KernelUses(k) <= needed && InPlaceIn(env, k)
    ensures Sim(needed, env, ExecKernel(m, RecordKernel(env, k, place)), RunKernel(store, k))
  {
    hide Addrs;
    ValuesHeld(needed, env, m, store, k.srcs);
    var m', store' := ExecKernel(m, RecordKernel(env, k, place)), RunKernel(store, k);
    PlaceAddr(env[k.dst]);
    forall n | n in needed ensures Holds(env, m', store', n) {
      assert Holds(env, m, store, n);
      if n != k.dst {
        ContentsFrame(m, m', env[n]);
      }
    }
  }

  lemma PlaceAddr(t: Tree<Cell>)
    ensures IsPlace(t) ==> Addrs(t) == {t.at.address}
  {
  }

  lemma {:induction false} BodySim(needed: set<Name>, env: Env, m: Memory, store: Store, ks: seq<Kernel>)
    requires Sim(needed, env, m, store) && BodyUses(ks) <= needed && BodyInPlace(env, ks)
    ensures Sim(needed, env, ExecKernels(m, RecordBody(env, ks)), RunKernels(store, ks))
    decreases |ks|
  {
    hide Sim;
    if ks == [] {
    } else {
      var body := RecordBody(env, ks);
      assert body[1..] == RecordBody(env, ks[1..]);
      assert InPlaceIn(env, ks[0]);
      InPlaceSim(needed, env, m, store, ks[0], Tuple([]));
      BodySim(needed, env, ExecKernel(m, body[0]), RunKernel(store, ks[0]), ks[1..]);
    }
  }

  /** Binding a name to a place that holds its value, all other wanted names being left alone. */
  lemma BindSim(needed: set<Name>, env: Env, m: Memory, m': Memory, store: Store, dst: Name, place: Tree<Cell>,
                v: Tree<int>)
    requires Sim(needed - {dst}, env, m, store)
    requires forall n :: n in needed && n != dst && n in env ==> Addrs(place) !! Addrs(env[n])
    requires forall a :: a !in Addrs(place) ==> Read(m', a) == Read(m, a)
    requires Contents(m', place) == v
    ensures Sim(needed, env[dst := place], m', store[dst := v])
  {
    hide Addrs, Contents;
    forall n | n in needed ensures Holds(env[dst := place], m', store[dst := v], n) {
      if n != dst {
        assert Holds(env, m, store, n);
        ContentsFrame(m, m', env[n]);
      }
    }
  }

  lemma SimFewer(more: set<Name>, fewer: set<Name>, env: Env, m: Memory, store: Store)
    requires Sim(more, env, m, store) && fewer <= more
    ensures Sim(fewer, env, m, store)
  {
  }

  /** One operation of the replay does what the eager run does. */
  lemma OpSim(needed: set<Name>, env: Env, m: Memory, store: Store, op: Op, place: Tree<Cell>)
    requires Sim((needed - Binds(op)) + Uses(op), env, m, store) && OpPlaced(env, op, place, needed)
    ensures DistinctOutput(RecordOp(env, op, place)) && OpAfter(m, RecordOp(env, op, place)) == RecordOp(env, op, place)
    ensures Sim(needed, Bind(env, op, place), Exec(m, RecordOp(env, op, place)), RunOp(store, op))
  {
    hide Sim, Addrs, Contents, CopyOutput, CopyTree, Distinct, Matches;
    var before := (needed - Binds(op)) + Uses(op);
    match op
    case Launch(k) =>
      if k.inPlace {
        InPlaceSim(before, env, m, store, k, place);
        SimFewer(before, needed, env, Exec(m, RecordOp(env, op, place)), RunOp(store, op));
      } else {
        ValuesHeld(before, env, m, store, k.srcs);
        SimFewer(before, needed - {k.dst}, env, m, store);
        PlaceAddr(place);
        PlaceContents(Exec(m, RecordOp(env, op, place)), place);
        BindSim(needed, env, m, Exec(m, RecordOp(env, op, place)), store, k.dst, place,
                Tensor(k.fn(Named(store, k.srcs))));
      }
    case Break(dst, args, body, fn) =>
      var v := fn(Named(store, args));
      ValuesHeld(before, env, m, store, args);
      BodySim(before, env, m, store, body);
      var mid, storeMid := ExecKernels(m, RecordBody(env, body)), RunKernels(store, body);
      SimFewer(before, needed - {dst}, env, mid, storeMid);
      CopyIsLocal(mid, mid, place, v);
      MatchingIsCopied(mid, place, v);
      MatchingKeepsTree(place, v);
      BindSim(needed, env, mid, CopyOutput(mid, place, v), storeMid, dst, place, v);
  }

  lemma PlaceContents(m: Memory, t: Tree<Cell>)
    ensures IsPlace(t) ==> Contents(m, t) == Tensor(Read(m, t.at.address))
  {
  }

  /** From any memory that holds the wanted inputs, replaying the whole trace leaves, at the captured
      addresses of the wanted names, exactly what the eager run computes. */
  lemma {:induction false} ReplayIsEager(env: Env, m: Memory, store: Store, ops: seq<Op>, places: seq<Tree<Cell>>,
                                         outs: set<Name>)
    requires |places| == |ops| && WellPlaced(env, ops, places, outs) && Sim(Needs(ops, outs), env, m, store)
    ensures DistinctOutputs(Trace(env, ops, places))
    ensures TraceAfter(m, Trace(env, ops, places)) == Trace(env, ops, places)
    ensures Sim(outs, EnvAfter(env, ops, places), RunTrace(m, Trace(env, ops, places)), RunEager(store, ops))
    decreases |ops|
  {
    hide Sim, OpPlaced, RecordOp, Exec, OpAfter, RunOp, Bind;
    if ops == [] {
    } else {
      var env' := Bind(env, ops[0], places[0]);
      var first := RecordOp(env, ops[0], places[0]);
      OpSim(Needs(ops[1..], outs), env, m, store, ops[0], places[0]);
      ReplayIsEager(env', Exec(m, first), RunOp(store, ops[0]), ops[1..], places[1..], outs);
      assert Trace(env, ops, places)[1..] == Trace(env', ops[1..], places[1..]);
    }
  }

  // ---- Any number of replays ---------------------------------------------------------------

  /** Static buffers are never rebound. */
  ghost predicate NeverBound(ops: seq<Op>, statics: set<Name>) {
    forall i :: 0 <= i < |ops| ==> Binds(ops[i]) !! statics
  }

  lemma {:induction false} StaticsStay(env: Env, ops: seq<Op>, places: seq<Tree<Cell>>, statics: set<Name>, n: Name)
    requires |places| == |ops| && NeverBound(ops, statics) && n in statics && n in env
    ensures n in EnvAfter(env, ops, places) && EnvAfter(env, ops, places)[n] == env[n]
    decreases |ops|
  {
    if ops == [] {
    } else {
      assert Binds(ops[0]) !! statics && forall i :: 0 <= i < |ops| - 1 ==> ops[1..][i] == ops[i + 1];
      StaticsStay(Bind(env, ops[0], places[0]), ops[1..], places[1..], statics, n);
    }
  }

  /** Each round first writes new inputs into static buffers, then replays the trace as the round before
      left it. */
  function ReplayRounds(m: Memory, env: Env, trace: seq<AOp>, loads: seq<seq<Kernel>>): Memory
    requires DistinctOutputs(trace)
    decreases |loads|
  {
    if loads == [] then m
    else
      var loaded := ExecKernels(m, RecordBody(env, loads[0]));
      TraceAfterDistinct(loaded, trace);
      ReplayRounds(RunTrace(loaded, trace), env, TraceAfter(loaded, trace), loads[1..])
  }

  function EagerRounds(store: Store, ops: seq<Op>, loads: seq<seq<Kernel>>): Store
    decreases |loads|
  {
    if loads == [] then store else EagerRounds(RunEager(RunKernels(store, loads[0]), ops), ops, loads[1..])
  }

  /** New inputs go into static buffers. */
  ghost predicate LoadsOk(env: Env, statics: set<Name>, loads: seq<seq<Kernel>>) {
    forall i :: 0 <= i < |loads| ==> BodyInPlace(env, loads[i]) && BodyUses(loads[i]) <= statics
  }

  lemma SimStatics(env: Env, ops: seq<Op>, places: seq<Tree<Cell>>, outs: set<Name>, statics: set<Name>, m: Memory,
                   store: Store)
    requires |places| == |ops| && NeverBound(ops, statics) && statics <= outs && statics <= env.Keys
    requires Sim(outs, EnvAfter(env, ops, places), m, store)
    ensures Sim(statics, env, m, store)
  {
    hide Addrs, Contents, EnvAfter;
    var envAfter := EnvAfter(env, ops, places);
    forall n | n in statics ensures n in envAfter && envAfter[n] == env[n] && Holds(env, m, store, n) {
      StaticsStay(env, ops, places, statics, n);
      assert Holds(envAfter, m, store, n);
    }
  }

  /** One round: load, then replay. */
  lemma RoundIsEager(env: Env, ops: seq<Op>, places: seq<Tree<Cell>>, outs: set<Name>, statics: set<Name>, m: Memory,
                     store: Store, load: seq<Kernel>)
    requires |places| == |ops| && WellPlaced(env, ops, places, outs)
    requires Needs(ops, outs) <= statics && Sim(statics, env, m, store)
    requires BodyInPlace(env, load) && BodyUses(load) <= statics
    ensures DistinctOutputs(Trace(env, ops, places))
    ensures TraceAfter(ExecKernels(m, RecordBody(env, load)), Trace(env, ops, places)) == Trace(env, ops, places)
    ensures Sim(outs, EnvAfter(env, ops, places),
                RunTrace(ExecKernels(m, RecordBody(env, load)), Trace(env, ops, places)),
                RunEager(RunKernels(store, load), ops))
  {
    hide Sim;
    var m1, store1 := ExecKernels(m, RecordBody(env, load)), RunKernels(store, load);
    BodySim(statics, env, m, store, load);
    SimFewer(statics, Needs(ops, outs), env, m1, store1);
    ReplayIsEager(env, m1, store1, ops, places, outs);
  }

  /** Any number of replays on any inputs leaves every wanted name as the same number of eager runs does,
      state carried in static buffers included, from whatever memory the capture left behind. */
  lemma {:induction false} ReplaysAreEager(env: Env, ops: seq<Op>, places: seq<Tree<Cell>>, outs: set<Name>,
                                           statics: set<Name>, m: Memory, store: Store, loads: seq<seq<Kernel>>)
    requires |places| == |ops| && WellPlaced(env, ops, places, outs)
    requires Needs(ops, outs) <= statics <= outs && statics <= env.Keys && NeverBound(ops, statics)
    requires Sim(statics, env, m, store) && LoadsOk(env, statics, loads)
    ensures DistinctOutputs(Trace(env, ops, places))
    ensures Sim(if loads == [] then statics else outs, if loads == [] then env else EnvAfter(env, ops, places),
                ReplayRounds(m, env, Trace(env, ops, places), loads), EagerRounds(store, ops, loads))
    decreases |loads|
  {
    hide Sim, BodyInPlace, WellPlaced, Needs, RunTrace, ExecKernels, RecordBody, EnvAfter, Trace, NeverBound, RunEager,
      RunKernels, BodyUses, TraceAfter;
    PlacedOutputsDistinct(env, ops, places, outs);
    if loads == [] {
    } else {
      assert BodyInPlace(env, loads[0]) && BodyUses(loads[0]) <= statics;
      assert forall i :: 0 <= i < |loads| - 1 ==> loads[1..][i] == loads[i + 1];
      RoundIsEager(env, ops, places, outs, statics, m, store, loads[0]);
      var m1 := RunTrace(ExecKernels(m, RecordBody(env, loads[0])), Trace(env, ops, places));
      var store1 := RunEager(RunKernels(store, loads[0]), ops);
      if loads[1..] == [] {
      } else {
        SimStatics(env, ops, places, outs, statics, m1, store1);
        ReplaysAreEager(env, ops, places, outs, statics, m1, store1, loads[1..]);
      }
    }
  }

  lemma {:induction false} PlacedOutputsDistinct(env: Env, ops: seq<Op>, places: seq<Tree<Cell>>, outs: set<Name>)
    requires |places| == |ops| && WellPlaced(env, ops, places, outs)
    ensures DistinctOutputs(Trace(env, ops, places))
    decreases |ops|
  {
    hide Distinct;
    if ops == [] {
    } else {
      PlacedOutputsDistinct(Bind(env, ops[0], places[0]), ops[1..], places[1..], outs);
    }
  }

  /** No two of the names share an address. */
  ghost predicate ApartIn(env: Env, names: set<Name>) {
    forall n, n' :: n in names && n' in names && n != n' && n in env && n' in env ==> Addrs(env[n]) !! Addrs(env[n'])
  }

  /** What the static buffers of a memory hold. */
  function StaticsOf(m: Memory, env: Env): Store {
    map n | n in env :: Contents(m, env[n])
  }

  lemma AnyMemoryHoldsItsStatics(env: Env, statics: set<Name>, m: Memory)
    requires statics <= env.Keys
    requires ApartIn(env, statics)
    ensures Sim(statics, env, m, StaticsOf(m, env))
  {
    hide Addrs, Contents;
    forall n | n in statics ensures Holds(env, m, StaticsOf(m, env), n) {
    }
  }

  // ---- What capture left in the buffers ----------------------------------------------------

  /** Names whose values are settled after a load, given those settled before: a kernel settles what it writes
      exactly when everything it reads is settled. */
  ghost function Settled(load: seq<Kernel>, known: set<Name>): set<Name>
    decreases |load|
  {
    if load == [] then known
    else
      var k := load[0];
      Settled(load[1..], if forall n :: n in k.srcs ==> n in known then known + {k.dst} else known - {k.dst})
  }

  ghost predicate SameAt(a: Store, b: Store, n: Name) {
    n in a && n in b && a[n] == b[n]
  }

  /** What a load settles does not depend on anything else. */
  lemma {:induction false} LoadSettles(a: Store, b: Store, load: seq<Kernel>, known: set<Name>)
    requires forall n :: n in known ==> SameAt(a, b, n)
    ensures forall n :: n in Settled(load, known) ==> SameAt(RunKernels(a, load), RunKernels(b, load), n)
    decreases |load|
  {
    if load == [] {
    } else {
      var k := load[0];
      if forall n :: n in k.srcs ==> n in known {
        forall i | 0 <= i < |k.srcs| ensures Named(a, k.srcs)[i] == Named(b, k.srcs)[i] {
          assert SameAt(a, b, k.srcs[i]);
        }
        assert Named(a, k.srcs) == Named(b, k.srcs);
        LoadSettles(RunKernel(a, k), RunKernel(b, k), load[1..], known + {k.dst});
      } else {
        LoadSettles(RunKernel(a, k), RunKernel(b, k), load[1..], known - {k.dst});
      }
    }
  }

  /** Where everything a load reads is settled, it unsettles nothing. */
  lemma {:induction false} LoadKeepsSettled(load: seq<Kernel>, known: set<Name>)
    requires BodyUses(load) <= known
    ensures known <= Settled(load, known)
    decreases |load|
  {
    if load == [] {
    } else {
      assert forall n :: n in load[0].srcs ==> n in KernelUses(load[0]);
      LoadKeepsSettled(load[1..], known + {load[0].dst});
    }
  }

  /** All rounds, from any store that matches the memory once the first load is in. */
  lemma RoundsFromLoaded(env: Env, ops: seq<Op>, places: seq<Tree<Cell>>, outs: set<Name>, statics: set<Name>,
                         m: Memory, loaded: Store, loads: seq<seq<Kernel>>)
    requires |places| == |ops| && WellPlaced(env, ops, places, outs) && LoadsOk(env, statics, loads) && loads != []
    requires Needs(ops, outs) <= statics <= outs && statics <= env.Keys && NeverBound(ops, statics)
    requires Sim(Needs(ops, outs), env, ExecKernels(m, RecordBody(env, loads[0])), loaded)
    ensures DistinctOutputs(Trace(env, ops, places))
    ensures Sim(outs, EnvAfter(env, ops, places), ReplayRounds(m, env, Trace(env, ops, places), loads),
                EagerRounds(RunEager(loaded, ops), ops, loads[1..]))
  {
    hide Sim, BodyInPlace, RunTrace, RecordBody, ExecKernels, WellPlaced;
    var m1 := ExecKernels(m, RecordBody(env, loads[0]));
    ReplayIsEager(env, m1, loaded, ops, places, outs);
    var m2 := RunTrace(m1, Trace(env, ops, places));
    if loads[1..] == [] {
    } else {
      assert forall i :: 0 <= i < |loads| - 1 ==> loads[1..][i] == loads[i + 1];
      SimStatics(env, ops, places, outs, statics, m2, RunEager(loaded, ops));
      ReplaysAreEager(env, ops, places, outs, statics, m2, RunEager(loaded, ops), loads[1..]);
    }
  }

  /** From two memories that agree on some static names: where these and the first load settle all that the
      pass needs, every round gives the same results. */
  lemma SettledRoundsAgree(env: Env, ops: seq<Op>, places: seq<Tree<Cell>>, outs: set<Name>, statics: set<Name>,
                           known: set<Name>, m: Memory, m': Memory, loads: seq<seq<Kernel>>)
    requires |places| == |ops| && WellPlaced(env, ops, places, outs) && LoadsOk(env, statics, loads) && loads != []
    requires Needs(ops, outs) <= statics <= outs && statics <= env.Keys && NeverBound(ops, statics)
    requires ApartIn(env, statics) && known <= statics
    requires forall n :: n in known ==> Contents(m, env[n]) == Contents(m', env[n])
    requires Needs(ops, outs) <= Settled(loads[0], known)
    ensures DistinctOutputs(Trace(env, ops, places))
    ensures forall n :: n in outs ==> SameAfterRounds(env, ops, places, m, m', loads, n)
  {
    hide BodyInPlace, RunTrace, RecordBody, ExecKernels, WellPlaced, Addrs, Contents, ReplayRounds, EagerRounds, Needs,
      Settled;
    assert BodyInPlace(env, loads[0]) && BodyUses(loads[0]) <= statics;
    var needs, body := Needs(ops, outs), RecordBody(env, loads[0]);
    var a, b := StaticsOf(m, env), StaticsOf(m', env);
    var store := RunKernels(a, loads[0]);
    assert forall n :: n in known ==> SameAt(a, b, n);
    LoadSettles(a, b, loads[0], known);
    hide StaticsOf;
    AnyMemoryHoldsItsStatics(env, statics, m);
    AnyMemoryHoldsItsStatics(env, statics, m');
    BodySim(statics, env, m, a, loads[0]);
    BodySim(statics, env, m', b, loads[0]);
    forall n | n in needs ensures Holds(env, ExecKernels(m', body), store, n) {
      assert SameAt(store, RunKernels(b, loads[0]), n);
      assert Holds(env, ExecKernels(m', body), RunKernels(b, loads[0]), n);
    }
    RoundsFromLoaded(env, ops, places, outs, statics, m, store, loads);
    RoundsFromLoaded(env, ops, places, outs, statics, m', store, loads);
    var final := EagerRounds(RunEager(store, ops), ops, loads[1..]);
    forall n | n in outs ensures SameAfterRounds(env, ops, places, m, m', loads, n) {
      var t := Trace(env, ops, places);
      assert Holds(EnvAfter(env, ops, places), ReplayRounds(m, env, t, loads), final, n);
      assert Holds(EnvAfter(env, ops, places), ReplayRounds(m', env, t, loads), final, n);
    }
  }

  ghost predicate SameAfterRounds(env: Env, ops: seq<Op>, places: seq<Tree<Cell>>, m: Memory, m': Memory,
                                  loads: seq<seq<Kernel>>, n: Name)
    requires |places| == |ops| && DistinctOutputs(Trace(env, ops, places))
  {
    var t, after := Trace(env, ops, places), EnvAfter(env, ops, places);
    n in after &&
    Contents(ReplayRounds(m, env, t, loads), after[n]) == Contents(ReplayRounds(m', env, t, loads), after[n])
  }
}

/** Two passes with a stubbed break: one whose stub shows in every replay, and one shaped like a served model, whose
    stub never shows though another break writes a cache while it is captured. */
module StubExample {
  import opened Wrappers
  import opened OutputTrees
  import opened GraphPrograms
  import opened BreakableGraph
  import opened StubFlow

  const STATE: Name := 0
  const STUBBED: Name := 1
  const RUN: Name := 2

  function Total(v: seq<Tree<int>>): int {
    if |v| == 2 && v[0].Tensor? && v[1].Tensor? then v[0].at + v[1].at else 0
  }

  function Blank(v: seq<Tree<int>>): Tree<int> { Tensor(0) }

  function Place(address: nat): Tree<Cell> { Tensor(Captured(address)) }

  /** A stubbed break, then one that runs at capture and adds the first one's output to a static buffer. */
  function Pass(): seq<Op> {
    [Break(STUBBED, [], [], Blank), Break(RUN, [], [Kernel(STATE, true, [STATE, STUBBED], Total)], Blank)]
  }

  function Start(): Env { map[STATE := Place(STATE)] }

  function Places(): seq<Tree<Cell>> { [Place(STUBBED), Place(RUN)] }

  function FirstBreak(): ABreak { ABreak(Place(STUBBED), [], [], Blank) }

  function SecondBreak(): ABreak {
    ABreak(Place(RUN), [], [AKernel(STATE, [Place(STATE), Place(STUBBED)], Total)], Blank)
  }

  lemma Recorded()
    ensures Trace(Start(), Pass(), Places()) == [AEager(FirstBreak()), AEager(SecondBreak())]
    ensures var after := EnvAfter(Start(), Pass(), Places()); STATE in after && after[STATE] == Place(STATE)
  {
    var env1 := Bind(Start(), Pass()[0], Places()[0]);
    assert Named(Start(), []) == [] && Named(env1, []) == [];
    assert Named(env1, [STATE, STUBBED]) == [Place(STATE), Place(STUBBED)];
    assert RecordBody(Start(), []) == [];
    assert RecordBody(env1, [Kernel(STATE, true, [STATE, STUBBED], Total)]) == SecondBreak().body;
    assert Pass()[1..] == [Pass()[1]] && Places()[1..] == [Places()[1]];
    assert Trace(env1, [Pass()[1]], [Places()[1]]) == [AEager(SecondBreak())];
  }

  /** The second break adds what the first one's output holds. */
  lemma SecondAdds(m: Memory)
    ensures Distinct(SecondBreak().output)
    ensures Read(ExecBreak(m, SecondBreak()), STATE) == Read(m, STATE) + Read(m, STUBBED)
  {
    var k := SecondBreak().body[0];
    assert ContentsOf(m, k.srcs) == [Tensor(Read(m, STATE)), Tensor(Read(m, STUBBED))];
    assert SecondBreak().body[1..] == [];
    assert ExecKernels(m, SecondBreak().body) == ExecKernel(m, k);
  }

  /** The first one's own output is blank. */
  lemma FirstBlanks(m: Memory)
    ensures Distinct(FirstBreak().output)
    ensures Read(ExecBreak(m, FirstBreak()), STATE) == Read(m, STATE) && Read(ExecBreak(m, FirstBreak()), STUBBED) == 0
  {
  }

  function Stubs(value: int): (s: seq<Option<Tree<int>>>)
    ensures |s| == 2
  {
    [Some(Tensor(value)), None]
  }

  /** Both breaks at capture, the first one stubbed. */
  lemma CapturedState(value: int)
    ensures var t := [AEager(FirstBreak()), AEager(SecondBreak())];
      DistinctOutputs(t) && Read(CaptureRun(map[], t, Stubs(value)), STATE) == value
  {
    var t, stubs := [AEager(FirstBreak()), AEager(SecondBreak())], Stubs(value);
    FirstBlanks(map[]);
    assert DistinctOutput(t[0]) && DistinctOutput(t[1]);
    var m := AfterCapturedOp(map[], t[0], stubs[0]);
    assert Read(m, STATE) == 0 && Read(m, STUBBED) == value;
    SecondAdds(m);
    assert t[1..] == [t[1]] && stubs[1..] == [stubs[1]] && t[1..][1..] == [] && stubs[1..][1..] == [];
    assert CaptureRun(map[], t, stubs) == AfterCapturedOp(m, t[1], stubs[1]);
  }

  /** A replay leaves the buffer as it found it. */
  lemma RoundKeeps(m: Memory)
    ensures var t := [AEager(FirstBreak()), AEager(SecondBreak())];
      DistinctOutputs(t) && Read(ReplayRounds(m, Start(), t, [[]]), STATE) == Read(m, STATE)
  {
    var t := [AEager(FirstBreak()), AEager(SecondBreak())];
    var loads: seq<seq<Kernel>> := [[]];
    FirstBlanks(m);
    SecondAdds(ExecBreak(m, FirstBreak()));
    assert DistinctOutput(t[0]) && DistinctOutput(t[1]);
    assert RecordBody(Start(), loads[0]) == [] && ExecKernels(m, []) == m && loads[1..] == [];
    assert t[1..] == [t[1]] && t[1..][1..] == [];
    assert RunTrace(m, t) == ExecBreak(ExecBreak(m, FirstBreak()), SecondBreak());
  }

  lemma StateAfter(value: int)
    ensures var t := Trace(Start(), Pass(), Places());
      DistinctOutputs(t) && STATE in EnvAfter(Start(), Pass(), Places()) &&
      Contents(ReplayRounds(CaptureRun(map[], t, Stubs(value)), Start(), t, [[]]),
               EnvAfter(Start(), Pass(), Places())[STATE]) == Tensor(value)
  {
    hide Trace, EnvAfter, ReplayRounds, CaptureRun, Pass, FirstBreak, SecondBreak, Read, Stubs;
    Recorded();
    CapturedState(value);
    RoundKeeps(CaptureRun(map[], Trace(Start(), Pass(), Places()), Stubs(value)));
  }

  /** The pass is as well placed as any, and its one buffer is never loaded. */
  lemma PassOk()
    ensures WellPlaced(Start(), Pass(), Places(), {STATE}) && Needs(Pass(), {STATE}) == {STATE}
    ensures NeverBound(Pass(), {STATE}) && ApartIn(Start(), {STATE}) && LoadsOk(Start(), {STATE}, [[]])
  {
    var ks := [Kernel(STATE, true, [STATE, STUBBED], Total)];
    assert ks[1..] == [] && BodyUses(ks) == {STATE, STUBBED};
    assert Pass()[1..] == [Pass()[1]] && Places()[1..] == [Places()[1]] && Pass()[1..][1..] == [];
    assert Needs(Pass()[1..], {STATE}) == {STATE, STUBBED};
    var env1 := Bind(Start(), Pass()[0], Places()[0]);
    assert InPlaceIn(env1, ks[0]) && OpPlaced(env1, Pass()[1], Places()[1], {STATE});
    assert WellPlaced(env1, Pass()[1..], Places()[1..], {STATE});
    assert OpPlaced(Start(), Pass()[0], Places()[0], {STATE, STUBBED});
  }

  lemma OnlyStateWritten(value: int)
    ensures CaptureWrites(Pass(), Stubs(value)) == {STATE}
  {
    var ks := [Kernel(STATE, true, [STATE, STUBBED], Total)];
    assert KernelWrites(ks) == {STATE} by {
      assert ks[0].dst in KernelWrites(ks);
    }
    assert Pass()[1..] == [Pass()[1]] && Stubs(value)[1..] == [Stubs(value)[1]];
    assert Pass()[1..][1..] == [] && Stubs(value)[1..][1..] == [];
  }

  lemma PairAddrs(a: nat, b: nat)
    ensures Addrs(Tuple([Place(a), Place(b)])) == {a, b} && Addrs(Tuple([Place(a)])) == {a}
  {
    var pair, one := [Place(a), Place(b)], [Place(a)];
    assert Addrs(Place(a)) == {a} && Addrs(Place(b)) == {b};
    assert pair[0] == Place(a) && pair[1] == Place(b) && one[0] == Place(a);
    assert a in Addrs(Tuple(pair)) && b in Addrs(Tuple(pair)) && a in Addrs(Tuple(one));
  }

  /** The buffer's address is one the stub flows to, at capture and still after a round. */
  lemma StateFlows()
    ensures var t, which := Trace(Start(), Pass(), Places()), [true, false];
      CaptureFlow(t, which, which, {}) == {STATE, STUBBED} &&
      RoundsFlow(Start(), t, [[]], CaptureFlow(t, which, which, {})) == {STATE}
  {
    hide Trace, Pass;
    Recorded();
    var t, which := [AEager(FirstBreak()), AEager(SecondBreak())], [true, false];
    var k := SecondBreak().body[0];
    var loads: seq<seq<Kernel>> := [[]];
    PairAddrs(STATE, STUBBED);
    assert t[1..] == [t[1]] && which[1..] == [false] && t[1..][1..] == [] && which[1..][1..] == [];
    assert SecondBreak().body[1..] == [] && RecordBody(Start(), loads[0]) == [] && loads[1..] == [];
    assert CaptureOpFlow(t[0], true, true, {}) == {STUBBED};
    assert BreakFlow(SecondBreak(), {STUBBED}) == {STATE, STUBBED};
    assert BreakFlow(FirstBreak(), {STATE, STUBBED}) == {STATE} && BreakFlow(SecondBreak(), {STATE}) == {STATE};
  }

  /** Every other condition holds, and still what the stub produced shows in the static buffer after a replay. */
  lemma StubValueShows(value: int, value': int)
    ensures WellPlaced(Start(), Pass(), Places(), {STATE}) && Needs(Pass(), {STATE}) == {STATE}
    ensures NeverBound(Pass(), {STATE}) && ApartIn(Start(), {STATE}) && LoadsOk(Start(), {STATE}, [[]])
    ensures CaptureWrites(Pass(), Stubs(value)) == {STATE}
    ensures !AlwaysCapturedAlike(Start(), Pass(), Places(), {STATE}, [true, false], STATE)
    ensures !AlwaysReplayedAlike(Start(), Pass(), Places(), {STATE}, [true, false], [[]], STATE)
    ensures var t := Trace(Start(), Pass(), Places());
      DistinctOutputs(t) && (value == value' <==>
        SameAfterRounds(Start(), Pass(), Places(), CaptureRun(map[], t, Stubs(value)),
                        CaptureRun(map[], t, Stubs(value')), [[]], STATE))
  {
    hide WellPlaced, Needs, NeverBound, ApartIn, LoadsOk, Trace, EnvAfter, ReplayRounds, CaptureRun, CaptureWrites,
      Pass, Read, Stubs, CaptureFlow, RoundsFlow, AlwaysCapturedAlike, AlwaysReplayedAlike;
    PassOk();
    OnlyStateWritten(value);
    Recorded();
    StateAfter(value);
    StateAfter(value');
    StateFlows();
    CaptureFlowExact(Start(), Pass(), Places(), {STATE}, [true, false], STATE);
    ReplayFlowExact(Start(), Pass(), Places(), {STATE}, [true, false], [[]], STATE);
  }

  // ---- A served model ----------------------------------------------------------------------

  const IDS: Name := 0
  const CACHE: Name := 1
  const ROWS: Name := 2
  const HIDDEN: Name := 3
  const OUT: Name := 4

  type Answer = seq<Tree<int>> -> int

  function OneTensor(answer: Answer): seq<Tree<int>> -> Tree<int> { v => Tensor(answer(v)) }

  function Store(write: Answer): Kernel { Kernel(CACHE, true, [CACHE, HIDDEN], write) }

  /** Table rows are gathered, mixed by a captured kernel, and read by attention, which writes its cache. */
  function Served(gather: Answer, mix: Answer, write: Answer, attend: Answer): (ops: seq<Op>)
    ensures |ops| == 3
  {
    [Gather(gather), Mix(mix), Attend(write, attend)]
  }

  function Gather(gather: Answer): Op { Break(ROWS, [IDS], [], OneTensor(gather)) }

  function Mix(mix: Answer): Op { Launch(Kernel(HIDDEN, false, [ROWS], mix)) }

  function Attend(write: Answer, attend: Answer): Op { Break(OUT, [HIDDEN], [Store(write)], OneTensor(attend)) }

  function Buffers(): Env { map[IDS := Place(IDS), CACHE := Place(CACHE)] }

  function WithRows(): Env { Buffers()[ROWS := Place(ROWS)] }

  function WithHidden(): Env { WithRows()[HIDDEN := Place(HIDDEN)] }

  function Allocated(): (places: seq<Tree<Cell>>)
    ensures |places| == 3
  {
    [Place(ROWS), Place(HIDDEN), Place(OUT)]
  }

  function GatherBreak(gather: Answer): ABreak { ABreak(Place(ROWS), [Place(IDS)], [], OneTensor(gather)) }

  function MixKernel(mix: Answer): AKernel { AKernel(HIDDEN, [Place(ROWS)], mix) }

  function AttendBreak(write: Answer, attend: Answer): ABreak {
    ABreak(Place(OUT), [Place(HIDDEN)], [AKernel(CACHE, [Place(CACHE), Place(HIDDEN)], write)], OneTensor(attend))
  }

  function ServedTrace(gather: Answer, mix: Answer, write: Answer, attend: Answer): (t: seq<AOp>)
    ensures |t| == 3
  {
    [AEager(GatherBreak(gather)), ALaunch(MixKernel(mix)), AEager(AttendBreak(write, attend))]
  }

  function GatherStub(value: Tree<int>): (stubs: seq<Option<Tree<int>>>)
    ensures |stubs| == 3
  {
    [Some(value), None, None]
  }

  lemma OpsRecorded(gather: Answer, mix: Answer, write: Answer, attend: Answer)
    ensures RecordOp(Buffers(), Gather(gather), Place(ROWS)) == AEager(GatherBreak(gather))
    ensures RecordOp(WithRows(), Mix(mix), Place(HIDDEN)) == ALaunch(MixKernel(mix))
    ensures RecordOp(WithHidden(), Attend(write, attend), Place(OUT)) == AEager(AttendBreak(write, attend))
    ensures Bind(Buffers(), Gather(gather), Place(ROWS)) == WithRows()
    ensures Bind(WithRows(), Mix(mix), Place(HIDDEN)) == WithHidden()
  {
    assert Named(Buffers(), [IDS]) == [Place(IDS)] && Named(WithRows(), [ROWS]) == [Place(ROWS)];
    assert Named(WithHidden(), [HIDDEN]) == [Place(HIDDEN)];
    assert Named(WithHidden(), [CACHE, HIDDEN]) == [Place(CACHE), Place(HIDDEN)];
    assert RecordBody(Buffers(), []) == [];
    assert RecordBody(WithHidden(), [Store(write)]) == AttendBreak(write, attend).body;
  }

  lemma OpsPlaced(gather: Answer, mix: Answer, write: Answer, attend: Answer)
    ensures OpPlaced(Buffers(), Gather(gather), Place(ROWS), {IDS, CACHE, ROWS})
    ensures OpPlaced(WithRows(), Mix(mix), Place(HIDDEN), {IDS, CACHE, HIDDEN})
    ensures OpPlaced(WithHidden(), Attend(write, attend), Place(OUT), {IDS, CACHE, OUT})
  {
    assert InPlaceIn(WithHidden(), Store(write));
  }

  lemma OpsUse(gather: Answer, mix: Answer, write: Answer, attend: Answer)
    ensures Binds(Gather(gather)) == {ROWS} && Uses(Gather(gather)) == {IDS}
    ensures Binds(Mix(mix)) == {HIDDEN} && Uses(Mix(mix)) == {ROWS}
    ensures Binds(Attend(write, attend)) == {OUT} && Uses(Attend(write, attend)) == {CACHE, HIDDEN}
  {
    var body := [Store(write)];
    assert body[1..] == [] && BodyUses(body) == KernelUses(Store(write)) == {CACHE, HIDDEN};
  }

  lemma ServedIs(gather: Answer, mix: Answer, write: Answer, attend: Answer)
    ensures Trace(Buffers(), Served(gather, mix, write, attend), Allocated()) == ServedTrace(gather, mix, write, attend)
    ensures WellPlaced(Buffers(), Served(gather, mix, write, attend), Allocated(), {IDS, CACHE, OUT})
    ensures Needs(Served(gather, mix, write, attend), {IDS, CACHE, OUT}) == {IDS, CACHE}
    ensures NeverBound(Served(gather, mix, write, attend), {IDS, CACHE}) && ApartIn(Buffers(), {IDS, CACHE})
  {
    hide RecordOp, Bind, Gather, Mix, Attend, OpPlaced, Binds, Uses, GatherBreak, MixKernel, AttendBreak, Place, Addrs,
      WithRows, WithHidden;
    var ops, outs := Served(gather, mix, write, attend), {IDS, CACHE, OUT};
    var ops1, ops2, p1, p2 := [Mix(mix), Attend(write, attend)], [Attend(write, attend)], [Place(HIDDEN), Place(OUT)],
      [Place(OUT)];
    assert ops[1..] == ops1 && ops1[1..] == ops2 && ops2[1..] == [];
    assert Allocated()[1..] == p1 && p1[1..] == p2 && p2[1..] == [];
    OpsRecorded(gather, mix, write, attend);
    OpsPlaced(gather, mix, write, attend);
    OpsUse(gather, mix, write, attend);
    assert Needs([], outs) == outs && Needs(ops2, outs) == {IDS, CACHE, HIDDEN};
    assert Needs(ops1, outs) == {IDS, CACHE, ROWS};
    assert Needs(ops, outs) == {IDS, CACHE};
    assert WellPlaced(WithHidden(), ops2, p2, outs);
    assert WellPlaced(WithRows(), ops1, p1, outs);
    assert Trace(WithHidden(), ops2, p2) == [AEager(AttendBreak(write, attend))];
    assert Trace(WithRows(), ops1, p1) == [ALaunch(MixKernel(mix)), AEager(AttendBreak(write, attend))];
    BuffersApart();
  }

  lemma BuffersApart()
    ensures ApartIn(Buffers(), {IDS, CACHE})
  {
  }

  /** The stub flows to the gathered rows only. */
  lemma RowsOnly(gather: Answer, mix: Answer, write: Answer, attend: Answer)
    ensures var which := [true, false, false];
      CaptureFlow(ServedTrace(gather, mix, write, attend), which, which, {}) == {ROWS}
  {
    var t, which := ServedTrace(gather, mix, write, attend), [true, false, false];
    AttendMisses(write, attend);
    hide AttendBreak, BreakFlow;
    var t1, t2, w1, w2 := [t[1], t[2]], [t[2]], [false, false], [false];
    assert t[1..] == t1 && t1[1..] == t2 && t2[1..] == [] && which[1..] == w1 && w1[1..] == w2 && w2[1..] == [];
    assert CaptureOpFlow(t[0], true, true, {}) == {ROWS} && CaptureOpFlow(t[1], false, false, {ROWS}) == {ROWS};
    assert CaptureFlow(t2, w2, w2, {ROWS}) == {ROWS};
    assert CaptureFlow(t1, w1, w1, {ROWS}) == {ROWS};
  }

  lemma AttendMisses(write: Answer, attend: Answer)
    ensures BreakFlow(AttendBreak(write, attend), {ROWS}) == {ROWS}
  {
    var b := AttendBreak(write, attend);
    PairAddrs(CACHE, HIDDEN);
    PairAddrs(HIDDEN, HIDDEN);
    assert b.body[1..] == [] && BodyFlow(b.body, {ROWS}) == KernelFlow(b.body[0], {ROWS}) == {ROWS};
    assert Addrs(b.output) == {OUT};
  }

  lemma CacheIsWritten(gather: Answer, mix: Answer, write: Answer, attend: Answer, value: Tree<int>)
    ensures CACHE in CaptureWrites(Served(gather, mix, write, attend), GatherStub(value))
    ensures Which(GatherStub(value)) == [true, false, false]
  {
    var ops, stubs := Served(gather, mix, write, attend), GatherStub(value);
    var body := [Store(write)];
    assert body[0].dst in KernelWrites(body);
    assert ops[1..] == [ops[1], ops[2]] && ops[1..][1..] == [ops[2]];
    assert stubs[1..] == [stubs[1], stubs[2]] && stubs[1..][1..] == [stubs[2]];
    assert CACHE in CaptureWrites([ops[2]], [stubs[2]]);
  }

  /** Attention runs at capture and writes the cache, which no load need fill, and still what the stub produced
      never shows: in no result, for any kernels, stub values, memory and loads. */
  lemma ServedStubNeverShows(gather: Answer, mix: Answer, write: Answer, attend: Answer, value: Tree<int>,
                             value': Tree<int>, m: Memory, loads: seq<seq<Kernel>>, n: Name)
    requires LoadsOk(Buffers(), {IDS, CACHE}, loads) && loads != [] && n in {IDS, CACHE, OUT}
    ensures CACHE in CaptureWrites(Served(gather, mix, write, attend), GatherStub(value))
    ensures ReplayedAlike(Buffers(), Served(gather, mix, write, attend), Allocated(), m, m, GatherStub(value),
                          GatherStub(value'), loads, n)
  {
    hide Served, ServedTrace, Trace, WellPlaced, Needs, CaptureFlow, LoadsOk, NeverBound, ApartIn, CaptureWrites,
      ReplayedAlike, GatherStub;
    var ops := Served(gather, mix, write, attend);
    ServedIs(gather, mix, write, attend);
    RowsOnly(gather, mix, write, attend);
    CacheIsWritten(gather, mix, write, attend, value);
    CacheIsWritten(gather, mix, write, attend, value');
    StubValuesNeverMatter(Buffers(), ops, Allocated(), {IDS, CACHE, OUT}, {IDS, CACHE}, m, GatherStub(value),
                          GatherStub(value'), loads);
  }
}

/** Side streams during capture: the wait hook that tracks forks, and the joining that must happen before
    a segment may end. */
module StreamHook {
  import opened Wrappers

  type Stream = nat

  /** Device side of a capture: streams taking part, streams with work the capturing stream does not wait
      for yet, and which streams' work each stream is behind. tracked is the hook's set of forked streams. */
  datatype State = State(main: Stream, capturing: set<Stream>, unjoined: set<Stream>,
                         behind: map<Stream, set<Stream>>, tracked: set<Stream>)

  datatype Event = Wait(waiter: Stream, other: Stream) | Work(stream: Stream)

  function Behind(s: State, w: Stream): set<Stream> {
    if w in s.behind then s.behind[w] else {}
  }

  /** A plain wait: the waiter follows everything the other did, and joins the capture if the other is in it. */
  function PlainWait(s: State, w: Stream, o: Stream): State {
    if o !in s.capturing || w == o then s
    else if w == s.main then s.(unjoined := s.unjoined - ({o} + Behind(s, o)))
    else
      s.(capturing := s.capturing + {w}, unjoined := s.unjoined + {w},
         behind := Outdated(s, w)[w := Behind(s, w) + {o} + Behind(s, o)])
  }

  /** New work on a stream: nobody is behind it any more. */
  function Outdated(s: State, w: Stream): map<Stream, set<Stream>> {
    map v | v in s.behind :: s.behind[v] - {w}
  }

  /** The hooked wait. */
  function HookedWait(s: State, w: Stream, o: Stream): State {
    if w == s.main && o != s.main then
      if o !in s.capturing then s else PlainWait(s, w, o).(tracked := s.tracked - {o})
    else if o == s.main && w != s.main then PlainWait(s, w, o).(tracked := s.tracked + {w})
    else PlainWait(s, w, o)
  }

  function Launch(s: State, stream: Stream): State {
    if stream == s.main || stream !in s.capturing then s
    else s.(unjoined := s.unjoined + {stream}, behind := Outdated(s, stream))
  }

  function Step(s: State, e: Event): State {
    match e
    case Wait(w, o) => HookedWait(s, w, o)
    case Work(stream) => Launch(s, stream)
  }

  function Start(main: Stream): State {
    State(main, {main}, {}, map[], {})
  }

  function Run(main: Stream, events: seq<Event>): State {
    if events == [] then Start(main) else Step(Run(main, events[..|events| - 1]), events[|events| - 1])
  }

  // ---- Ending a segment --------------------------------------------------------------------

  /** Streams joined by waiting for those of a set. */
  ghost function Covered(s: State, joined: set<Stream>): set<Stream> {
    joined + set v, u | v in joined && u in Behind(s, v) :: u
  }

  /** What the end of a segment needs the device to have: no stream left unjoined. */
  predicate Clean(s: State) {
    s.unjoined == {}
  }

  /** The state once the tracked streams in joined have been waited for. */
  ghost function JoinedUpTo(s: State, joined: set<Stream>): State {
    s.(unjoined := s.unjoined - Covered(s, joined * s.capturing))
  }

  /** The state once every tracked stream still capturing has been waited for, and all are forgotten. */
  ghost function Ended(s: State): State {
    JoinedUpTo(s, s.tracked).(tracked := {})
  }

  lemma JoinOne(s: State, done: set<Stream>, side: Stream)
    requires side != s.main
    ensures JoinedUpTo(s, done + {side}) ==
      if side in s.capturing then PlainWait(JoinedUpTo(s, done), s.main, side) else JoinedUpTo(s, done)
  {
    hide Behind;
    if side in s.capturing {
      assert (done + {side}) * s.capturing == done * s.capturing + {side};
      assert Covered(s, done * s.capturing + {side}) == Covered(s, done * s.capturing) + ({side} + Behind(s, side));
      assert Behind(JoinedUpTo(s, done), side) == Behind(s, side) by {
        BehindKept(s, JoinedUpTo(s, done), side);
      }
    } else {
      assert (done + {side}) * s.capturing == done * s.capturing;
    }
  }

  lemma BehindKept(s: State, s': State, side: Stream)
    requires s.behind == s'.behind
    ensures Behind(s, side) == Behind(s', side)
  {
  }

  /** The hook over one segment: its state, and the waits and launches since the segment began. */
  class Tracker {
    const main: Stream
    var state: State
    ghost var events: seq<Event>

    ghost predicate Valid()
      reads this
    {
      state == Run(main, events)
    }

    constructor (main: Stream)
      ensures Valid() && this.main == main && events == []
    {
      this.main := main;
      state := Start(main);
      events := [];
    }

    method WaitStream(waiter: Stream, other: Stream)
      requires Valid()
      modifies this
      ensures Valid() && events == old(events) + [Wait(waiter, other)]
    {
      RunsAreSane(main, events);
      RunSnoc(main, events, Wait(waiter, other));
      events := events + [Wait(waiter, other)];
      if waiter == state.main && other != state.main {
        if other !in state.capturing {
          return;
        }
        state := PlainWait(state, waiter, other);
        state := state.(tracked := state.tracked - {other});
      } else if other == state.main && waiter != state.main {
        state := PlainWait(state, waiter, other);
        state := state.(tracked := state.tracked + {waiter});
      } else {
        state := PlainWait(state, waiter, other);
      }
    }

    /** Work put on a stream between waits, which the hook does not see. */
    method LaunchOn(stream: Stream)
      requires Valid()
      modifies this
      ensures Valid() && events == old(events) + [Work(stream)] && state.tracked == old(state).tracked
    {
      RunSnoc(main, events, Work(stream));
      events := events + [Work(stream)];
      state := Launch(state, stream);
    }

    /** Before a segment ends: wait for every tracked stream that is still capturing, forget them all. What
        was called decides whether any stream is left unjoined. */
    method JoinForked()
      requires Valid()
      modifies this
      ensures events == old(events) && state == Ended(Run(main, events)) && state.tracked == {}
      ensures Clean(state) <==> AllRejoin(main, events)
    {
      hide JoinedUpTo, PlainWait, Rejoins, Followers;
      RunsAreSane(main, events);
      EndIsClean(main, events);
      ghost var before := state;
      var forked := state.tracked;
      ghost var done: set<Stream> := {};
      JoinedKeeps(before, done);
      while forked != {}
        invariant forked <= before.tracked && done == before.tracked - forked && events == old(events)
        invariant state == JoinedUpTo(before, done) && state.main == before.main && state.capturing == before.capturing
        decreases |forked|
      {
        var side: Stream :| side in forked;
        JoinOne(before, done, side);
        JoinedKeeps(before, done + {side});
        if side in state.capturing {
          state := PlainWait(state, state.main, side);
        }
        forked := forked - {side};
        done := done + {side};
      }
      assert done == before.tracked;
      state := state.(tracked := {});
    }
  }

  lemma JoinedKeeps(s: State, joined: set<Stream>)
    ensures JoinedUpTo(s, joined).main == s.main && JoinedUpTo(s, joined).capturing == s.capturing
    ensures JoinedUpTo(s, {}) == s
  {
    assert {} * s.capturing == {} && Covered(s, {}) == {};
  }

  // ---- Runs --------------------------------------------------------------------------------

  ghost predicate Sane(s: State) {
    s.main in s.capturing && s.main !in s.tracked && s.main !in s.unjoined && s.unjoined <= s.capturing &&
    s.tracked <= s.capturing
  }

  lemma {:induction false} RunsAreSane(main: Stream, events: seq<Event>)
    ensures Sane(Run(main, events)) && Run(main, events).main == main
  {
    if events == [] {
    } else {
      RunsAreSane(main, events[..|events| - 1]);
    }
  }

  lemma RunSnoc(main: Stream, events: seq<Event>, e: Event)
    ensures Run(main, events + [e]) == Step(Run(main, events), e)
  {
    assert (events + [e])[..|events|] == events;
  }

  // ---- What the calls alone say ------------------------------------------------------------

  /** Streams in the capture: those that waited for one in it. */
  function Members(main: Stream, events: seq<Event>): set<Stream> {
    if events == [] then {main}
    else
      var before, e := Members(main, events[..|events| - 1]), events[|events| - 1];
      if e.Wait? && e.other in before then before + {e.waiter} else before
  }

  /** e puts new work on side stream u of the capture: a launch, or a wait for another stream in it. */
  predicate GivesWork(main: Stream, events: seq<Event>, e: Event, u: Stream) {
    u != main &&
    match e
    case Wait(w, o) => w == u && o != u && o in Members(main, events)
    case Work(stream) => stream == u && u in Members(main, events)
  }

  /** Streams that come after the last work of u: u itself, and whoever then waits for one of them. */
  function Followers(main: Stream, events: seq<Event>, u: Stream): set<Stream> {
    if events == [] then {}
    else
      var rest, e := events[..|events| - 1], events[|events| - 1];
      var before := Followers(main, rest, u);
      if GivesWork(main, rest, e, u) then {u}
      else if e.Wait? && e.other in before then before + {e.waiter}
      else before
  }

  /** The last wait between v and the capturing stream was a fork. */
  predicate LastForked(main: Stream, events: seq<Event>, v: Stream) {
    if events == [] then false
    else
      var rest, e := events[..|events| - 1], events[|events| - 1];
      if e == Wait(main, v) then false else if e == Wait(v, main) then true else LastForked(main, rest, v)
  }

  /** The last work of u is waited for by the capturing stream, or by a stream whose last wait with it was
      a fork. */
  ghost predicate Rejoins(main: Stream, events: seq<Event>, u: Stream) {
    main in Followers(main, events, u) ||
    exists v :: v in Followers(main, events, u) && v != main && LastForked(main, events, v)
  }

  ghost predicate AllRejoin(main: Stream, events: seq<Event>) {
    forall u :: u in Followers(main, events, u) ==> Rejoins(main, events, u)
  }

  /** The hook tracks exactly the streams whose last wait with the capturing stream was a fork. */
  lemma {:induction false} TrackedIsLastForked(main: Stream, events: seq<Event>, v: Stream)
    requires v != main
    ensures v in Run(main, events).tracked <==> LastForked(main, events, v)
  {
    if events == [] {
    } else {
      TrackedIsLastForked(main, events[..|events| - 1], v);
      RunsAreSane(main, events[..|events| - 1]);
    }
  }

  lemma {:induction false} CapturingIsMembers(main: Stream, events: seq<Event>)
    ensures Run(main, events).capturing == Members(main, events) && main !in Run(main, events).behind
    ensures main in Members(main, events)
  {
    if events == [] {
    } else {
      CapturingIsMembers(main, events[..|events| - 1]);
      RunsAreSane(main, events[..|events| - 1]);
    }
  }

  /** A stream's work is unjoined until the capturing stream follows it, and who is behind it is who follows. */
  ghost predicate FollowersMatch(main: Stream, s: State, members: set<Stream>, f: set<Stream>, u: Stream) {
    f <= members && (u in members ==> u in f) && (f != {} ==> u in f) &&
    (u in s.unjoined <==> u in f && main !in f) &&
    (main !in f ==> forall v :: v != main && v != u ==> (v in f <==> u in Behind(s, v)))
  }

  lemma WaitMatches(main: Stream, s: State, members: set<Stream>, f: set<Stream>, u: Stream, w: Stream, o: Stream)
    requires s.main == main && s.capturing == members && main in members && main !in s.behind && Sane(s)
    requires u != main && FollowersMatch(main, s, members, f, u)
    ensures var f' := if w == u && o != u && o in members then {u} else if o in f then f + {w} else f;
      FollowersMatch(main, HookedWait(s, w, o), if o in members then members + {w} else members, f', u)
  {
    if w != main && o in members && w != o && w != u {
      var s' := HookedWait(s, w, o);
      assert Behind(s', w) == Behind(s, w) + {o} + Behind(s, o);
      assert forall v :: v != w ==> Behind(s', v) == Behind(s, v) - {w};
    }
  }

  lemma LaunchMatches(main: Stream, s: State, members: set<Stream>, f: set<Stream>, u: Stream, stream: Stream)
    requires s.main == main && s.capturing == members && main in members && main !in s.behind && Sane(s)
    requires u != main && FollowersMatch(main, s, members, f, u)
    ensures FollowersMatch(main, Launch(s, stream), members, if stream == u && u in members then {u} else f, u)
  {
    if stream != main && stream in members {
      assert forall v :: Behind(Launch(s, stream), v) == Behind(s, v) - {stream};
    }
  }

  lemma {:induction false} UnjoinedIsUnfollowed(main: Stream, events: seq<Event>, u: Stream)
    requires u != main
    ensures FollowersMatch(main, Run(main, events), Members(main, events), Followers(main, events, u), u)
  {
    hide HookedWait, Launch, FollowersMatch, Sane;
    if events == [] {
      NothingFollows(main, u);
    } else {
      var rest, e := events[..|events| - 1], events[|events| - 1];
      UnjoinedIsUnfollowed(main, rest, u);
      CapturingIsMembers(main, rest);
      RunsAreSane(main, rest);
      match e
      case Wait(w, o) => WaitMatches(main, Run(main, rest), Members(main, rest), Followers(main, rest, u), u, w, o);
      case Work(stream) =>
        LaunchMatches(main, Run(main, rest), Members(main, rest), Followers(main, rest, u), u, stream);
    }
  }

  lemma NothingFollows(main: Stream, u: Stream)
    requires u != main
    ensures FollowersMatch(main, Start(main), {main}, {}, u)
  {
  }

  lemma {:induction false} MainGetsNoWork(main: Stream, events: seq<Event>)
    ensures Followers(main, events, main) == {}
  {
    if events == [] {
    } else {
      MainGetsNoWork(main, events[..|events| - 1]);
    }
  }

  /** One stream is left unjoined exactly when nobody who joins follows its last work. */
  lemma LeftUnjoined(main: Stream, events: seq<Event>, u: Stream)
    ensures u in Ended(Run(main, events)).unjoined <==>
      (u in Followers(main, events, u) && !Rejoins(main, events, u))
  {
    var s, f := Run(main, events), Followers(main, events, u);
    RunsAreSane(main, events);
    if u == main {
      MainGetsNoWork(main, events);
    } else {
      UnjoinedIsUnfollowed(main, events, u);
      forall v | v != main ensures v in s.tracked <==> LastForked(main, events, v) {
        TrackedIsLastForked(main, events, v);
      }
      assert s.tracked * s.capturing == s.tracked;
      hide Run, Followers, LastForked;
      if u in s.unjoined {
        assert u in Covered(s, s.tracked) <==> exists v :: v in f && v != main && LastForked(main, events, v) by {
          CoveredIsFollowed(main, events, s, f, u);
        }
      }
    }
  }

  lemma CoveredIsFollowed(main: Stream, events: seq<Event>, s: State, f: set<Stream>, u: Stream)
    requires FollowersMatch(main, s, Members(main, events), f, u) && u != main && u in f && main !in f && Sane(s)
    requires s.main == main && forall v :: v != main ==> (v in s.tracked <==> LastForked(main, events, v))
    ensures u in Covered(s, s.tracked) <==> exists v :: v in f && v != main && LastForked(main, events, v)
  {
    hide LastForked;
    if u in Covered(s, s.tracked) {
      if u !in s.tracked {
        var v :| v in s.tracked && u in Behind(s, v);
        assert v in f && v != main && LastForked(main, events, v);
      }
    }
    if v :| v in f && v != main && LastForked(main, events, v) {
      assert v == u || u in Behind(s, v);
    }
  }

  /** Over every list of calls, a segment can end cleanly exactly when the last work of every side stream is
      followed by the capturing stream or by a stream last forked from it. */
  lemma EndIsClean(main: Stream, events: seq<Event>)
    ensures Clean(Ended(Run(main, events))) <==> AllRejoin(main, events)
  {
    hide Run, Followers, Rejoins, Ended;
    var left := Ended(Run(main, events)).unjoined;
    forall u ensures u in left <==> u in Followers(main, events, u) && !Rejoins(main, events, u) {
      LeftUnjoined(main, events, u);
    }
    if left == {} {
      forall u | u in Followers(main, events, u) ensures Rejoins(main, events, u) {
        assert u !in left;
      }
    }
    if AllRejoin(main, events) {
      forall u ensures u !in left {
        assert u in Followers(main, events, u) ==> Rejoins(main, events, u);
      }
    }
  }

  // ---- Runs that always end cleanly, and one that does not ---------------------------------

  /** Side streams wait only for the capturing stream, and get work only between their fork and their join. */
  ghost predicate Disciplined(main: Stream, events: seq<Event>) {
    events == [] ||
    (var rest, e := events[..|events| - 1], events[|events| - 1];
     Disciplined(main, rest) &&
     match e
     case Wait(w, o) => w == main || o == main || o !in Members(main, rest) || w == o
     case Work(stream) => stream == main || stream !in Members(main, rest) || LastForked(main, rest, stream))
  }

  lemma {:induction false} DisciplinedRejoins(main: Stream, events: seq<Event>, u: Stream)
    requires Disciplined(main, events) && u in Followers(main, events, u) && u != main
    ensures main in Followers(main, events, u) || LastForked(main, events, u)
  {
    if events == [] {
    } else {
      var rest := events[..|events| - 1];
      UnjoinedIsUnfollowed(main, rest, u);
      if u in Followers(main, rest, u) {
        DisciplinedRejoins(main, rest, u);
      }
    }
  }

  /** Disciplined captures always can. */
  lemma DisciplinedEndsClean(main: Stream, events: seq<Event>)
    requires Disciplined(main, events)
    ensures Clean(Ended(Run(main, events)))
  {
    hide Run, Ended, Followers, LastForked;
    MainGetsNoWork(main, events);
    forall u | u in Followers(main, events, u) ensures Rejoins(main, events, u) {
      DisciplinedRejoins(main, events, u);
    }
    EndIsClean(main, events);
  }

  /** A stream forked from a side stream is not tracked, so it can be left unjoined. */
  lemma ForkOfForkIsMissed(main: Stream, side: Stream, inner: Stream)
    requires main != side && side != inner && main != inner
    ensures !Clean(Ended(Run(main, [Wait(side, main), Wait(inner, side)])))
  {
    var events := [Wait(side, main), Wait(inner, side)];
    var first: seq<Event> := [Wait(side, main)];
    assert first[..0] == [] && events[..1] == first;
    assert Members(main, []) == {main} && Members(main, first) == {main, side};
    assert Followers(main, events, inner) == {inner};
    assert !LastForked(main, [], inner) && !LastForked(main, first, inner) && !LastForked(main, events, inner);
    EndIsClean(main, events);
  }

  // ---- The hook itself ---------------------------------------------------------------------

  datatype WaitImpl = Original | Hooked

  /** The wait method in force, the saved original, and how many captures need the hook. */
  class Hook {
    var inForce: WaitImpl
    var saved: Option<WaitImpl>
    var refcount: nat

    ghost predicate Valid()
      reads this
    {
      if refcount == 0 then inForce == Original && saved == None else inForce == Hooked && saved == Some(Original)
    }

    constructor ()
      ensures Valid() && refcount == 0
    {
      inForce, saved, refcount := Original, None, 0;
    }

    method Install()
      requires Valid()
      modifies this
      ensures Valid() && refcount == old(refcount) + 1 && inForce == Hooked
    {
      if refcount == 0 {
        saved := Some(inForce);
        inForce := Hooked;
      }
      refcount := refcount + 1;
    }

    /** The last capture to leave puts the original back. */
    method Uninstall()
      requires Valid() && refcount > 0
      modifies this
      ensures Valid() && refcount == old(refcount) - 1
      ensures inForce == if refcount == 0 then Original else Hooked
    {
      refcount := refcount - 1;
      if refcount == 0 {
        inForce := saved.value;
        saved := None;
      }
    }
  }
}

/** Two races that the relay leaves open, with the exact runs in which they happen, and what a
    tombstone does to the calls that meet it. */
module RelayRaces {
  import opened Basics
  import opened RelayModel
  import opened RelayInvariants
  import opened RelayPreservation
  import opened RelayTheorems

  lemma RunStart(s: State, a: Action, acts: seq<Action>)
    requires HandlesOk(s) && Enabled(s, a) && CanRun(Step(s, a), acts)
    ensures CanRun(s, [a] + acts) && After(s, [a] + acts) == After(Step(s, a), acts)
  {
    assert ([a] + acts)[1..] == acts;
  }

  // ---- Tombstones and revival ----

  /** An id is live although its tombstone still stands: every attach will be refused. */
  ghost predicate Revived(s: State, id: string) {
    id in s.reg.sessions && id in s.reg.endedSessions
  }

  /** The one call that can revive an id: Register does not look at the tombstones. */
  ghost predicate RegistersTombstoned(s: State, a: Action) {
    a.Register? && a.id in s.reg.endedSessions
  }

  ghost predicate NeverRevived(s: State) {
    forall id: string :: !Revived(s, id)
  }

  lemma RevivalStep(s: State, a: Action)
    requires Inv(s) && Enabled(s, a) && NeverRevived(s)
    ensures NeverRevived(Step(s, a)) <==> !RegistersTombstoned(s, a)
  {
    if RegistersTombstoned(s, a) {
      assert Revived(Step(s, a), a.id);
    } else {
      forall id: string ensures !Revived(Step(s, a), id) {
        assert !Revived(s, id);
        if a.Run? && s.threads[a.t].EndEntered? {
          assert ThreadOk(s.threads[a.t], |s.reg.objs|, |s.conns|);
          assert OnceOk(s, s.threads[a.t].h);
        }
      }
    }
  }

  ghost predicate NeverRevivedDuring(s: State, acts: seq<Action>)
    requires CanRun(s, acts)
    decreases |acts|
  {
    NeverRevived(s) && (acts != [] ==> NeverRevivedDuring(Step(s, acts[0]), acts[1..]))
  }

  ghost predicate NoTombstonedRegister(s: State, acts: seq<Action>)
    requires CanRun(s, acts)
    decreases |acts|
  {
    acts != [] ==> !RegistersTombstoned(s, acts[0]) && NoTombstonedRegister(Step(s, acts[0]), acts[1..])
  }

  /** A run never brings a tombstoned id back to life if and only if it never registers one. */
  lemma {:induction false} NoResurrection(s: State, acts: seq<Action>)
    requires Inv(s) && NeverRevived(s) && CanRun(s, acts)
    ensures NeverRevivedDuring(s, acts) <==> NoTombstonedRegister(s, acts)
    decreases |acts|
  {
    if acts != [] {
      StepKeepsInv(s, acts[0]);
      RevivalStep(s, acts[0]);
      var s' := Step(s, acts[0]);
      if NeverRevived(s') {
        NoResurrection(s', acts[1..]);
      } else {
        assert !NeverRevivedDuring(s', acts[1..]);
      }
    }
  }

  // ---- What a tombstone does to attach ----

  lemma PlaceKept(s: State, a: Action, c: nat)
    requires HandlesOk(s) && Enabled(s, a) && c < |s.conns|
    ensures c < |Step(s, a).conns| && Step(s, a).conns[c].place == s.conns[c].place
  {
  }

  /** Where a connection went is settled by its attach call. */
  lemma {:induction false} PlaceIsFinal(s: State, acts: seq<Action>, c: nat)
    requires Inv(s) && CanRun(s, acts) && c < |s.conns|
    ensures c < |After(s, acts).conns| && After(s, acts).conns[c].place == s.conns[c].place
    decreases |acts|
  {
    if acts != [] {
      StepKeepsInv(s, acts[0]);
      PlaceKept(s, acts[0], c);
      PlaceIsFinal(Step(s, acts[0]), acts[1..], c);
    }
  }

  /** An attach that meets a tombstone changes nothing in the registry, and in every run that
      follows, its connection is held nowhere and is closed exactly once, by this very call:
      not yet while the call is unfinished, once when it is finished. */
  lemma AttachRefusedByTombstone(s: State, a: Action, acts: seq<Action>)
    requires Inv(s) && a.Attach? && a.id in s.reg.endedSessions && CanRun(Step(s, a), acts)
    ensures Step(s, a).reg == s.reg
    ensures var s', c, t := After(Step(s, a), acts), |s.conns|, |s.threads|;
      && c < |s'.conns| && t < |s'.threads| && s'.conns[c].place == Refused(t)
      && (s'.threads[t] == Rejecting(c) || s'.threads[t].Finished?)
      && s'.conns[c].closes == (if s'.threads[t].Finished? then 1 else 0)
      && (forall h, side | 0 <= h < |s'.reg.objs| :: s'.reg.objs[h].Slot(side) != Some(c))
  {
    var c := |s.conns|;
    StepKeepsInv(s, a);
    InvOverRun(Step(s, a), acts);
    PlaceIsFinal(Step(s, a), acts, c);
    var s' := After(Step(s, a), acts);
    assert ConnOk(s', c);
    assert HandlesOk(s') && ConnInv(s');
  }

  ghost predicate TombstonedDuring(s: State, acts: seq<Action>, id: string)
    requires CanRun(s, acts)
    decreases |acts|
  {
    acts != [] ==> id in s.reg.endedSessions && TombstonedDuring(Step(s, acts[0]), acts[1..], id)
  }

  /** The slots of every session of `id` in `b` are those it has in `a`; one that `a` does not
      know is empty. */
  ghost predicate SameSlots(a: Registry, b: Registry, id: string) {
    && |a.objs| <= |b.objs|
    && (forall h | 0 <= h < |a.objs| && a.objs[h].sessionId == id ::
          && b.objs[h].sessionId == id
          && b.objs[h].agentConn == a.objs[h].agentConn && b.objs[h].viewerConn == a.objs[h].viewerConn)
    && (forall h | |a.objs| <= h < |b.objs| && b.objs[h].sessionId == id ::
          b.objs[h].agentConn.None? && b.objs[h].viewerConn.None?)
  }

  lemma SlotsKeptByAttach(s: State, a: Action, id: string)
    requires HandlesOk(s) && RegistryInv(s) && id in s.reg.endedSessions && a.Attach?
    ensures SameSlots(s.reg, Step(s, a).reg, id)
  {
    if Refuses(s, a) {
      RefusalLeavesRegistry(s, a);
    } else {
      FillChangesOneSlot(s, a);
    }
  }

  lemma SlotsKeptByStep(s: State, a: Action, id: string)
    requires HandlesOk(s) && RegistryInv(s) && id in s.reg.endedSessions && Enabled(s, a)
    ensures SameSlots(s.reg, Step(s, a).reg, id)
  {
    if a.Attach? { SlotsKeptByAttach(s, a, id); }
  }

  lemma SameSlotsTrans(a: Registry, b: Registry, c: Registry, id: string)
    requires SameSlots(a, b, id) && SameSlots(b, c, id)
    requires forall h | 0 <= h < |b.objs| :: c.objs[h].sessionId == b.objs[h].sessionId
    ensures SameSlots(a, c, id)
  {
    forall h | |a.objs| <= h < |c.objs| && c.objs[h].sessionId == id
      ensures c.objs[h].agentConn.None? && c.objs[h].viewerConn.None?
    {
      if h < |b.objs| { assert b.objs[h].sessionId == id; }
    }
  }

  /** As long as the tombstone of an id stands, no session of that id gains or loses a
      connection, whether it had ended before or was registered since. */
  lemma {:induction false} TombstoneFreezesSlots(s: State, acts: seq<Action>, id: string)
    requires Inv(s) && CanRun(s, acts) && TombstonedDuring(s, acts, id)
    ensures SameSlots(s.reg, After(s, acts).reg, id)
    decreases |acts|
  {
    if acts != [] {
      var s' := Step(s, acts[0]);
      StepKeepsInv(s, acts[0]);
      SlotsKeptByStep(s, acts[0], id);
      TombstoneFreezesSlots(s', acts[1..], id);
      forall h | 0 <= h < |s'.reg.objs| ensures After(s, acts).reg.objs[h].sessionId == s'.reg.objs[h].sessionId {
        SlotsFrozen(s', acts[1..], h);
      }
      InvOverRun(s', acts[1..]);
      SameSlotsTrans(s.reg, s'.reg, After(s, acts).reg, id);
    }
  }

  // ---- "pair_timeout" can end a paired session ----

  /** An attach that will fill this side of session `h` if it is still free: same id, before
      the session has ended, no tombstone. */
  ghost predicate Offers(s: State, a: Action, h: nat, side: bool)
    requires h < |s.reg.objs|
  {
    && a.Attach? && a.isAgent == side && a.id == s.reg.objs[h].sessionId
    && !s.reg.objs[h].ended && a.id !in s.reg.endedSessions
  }

  lemma SlotAfterAttach(s: State, a: Action, h: nat, side: bool)
    requires HandlesOk(s) && RegistryInv(s) && a.Attach? && h < |s.reg.objs|
    ensures h < |Step(s, a).reg.objs|
    ensures Step(s, a).reg.objs[h].Slot(side).Some? <==> s.reg.objs[h].Slot(side).Some? || Offers(s, a, h, side)
  {
    if Refuses(s, a) {
      RefusalLeavesRegistry(s, a);
    } else {
      FillChangesOneSlot(s, a);
    }
  }

  lemma SlotAfterStep(s: State, a: Action, h: nat, side: bool)
    requires HandlesOk(s) && RegistryInv(s) && Enabled(s, a) && h < |s.reg.objs|
    ensures h < |Step(s, a).reg.objs|
    ensures Step(s, a).reg.objs[h].Slot(side).Some? <==> s.reg.objs[h].Slot(side).Some? || Offers(s, a, h, side)
  {
    if a.Attach? { SlotAfterAttach(s, a, h, side); }
  }

  /** The run contains such an attach. */
  ghost predicate Offered(s: State, acts: seq<Action>, h: nat, side: bool)
    requires CanRun(s, acts) && h < |s.reg.objs|
    decreases |acts|
  {
    acts != [] &&
    (Offers(s, acts[0], h, side)
     || (h < |Step(s, acts[0]).reg.objs| && Offered(Step(s, acts[0]), acts[1..], h, side)))
  }

  /** Over any run, a side of a session is connected at the end if and only if it was at the
      beginning or the run offers it a connection in time. */
  lemma {:induction false} SlotAfterRun(s: State, acts: seq<Action>, h: nat, side: bool)
    requires Inv(s) && CanRun(s, acts) && h < |s.reg.objs|
    ensures h < |After(s, acts).reg.objs|
    ensures After(s, acts).reg.objs[h].Slot(side).Some? <==> s.reg.objs[h].Slot(side).Some? || Offered(s, acts, h, side)
    decreases |acts|
  {
    if acts != [] {
      StepKeepsInv(s, acts[0]);
      SlotAfterStep(s, acts[0], h, side);
      SlotAfterRun(Step(s, acts[0]), acts[1..], h, side);
    }
  }

  /** A timer that found `h` unpaired and is about to call `end` on it. */
  ghost predicate TimerDecided(s: State, t: nat, h: nat) {
    && Inv(s) && t < |s.threads| && s.threads[t] == Ending([h], "pair_timeout") && h < |s.reg.objs|
    && s.reg.objs[h].endOnce.Idle?
  }

  /** The timer has ended `h`: it is past the mutex section of `end`. */
  ghost predicate TimerEnded(s: State, t: nat, h: nat) {
    && t < |s.threads| && s.threads[t] == EndUnregistered(h, [], "pair_timeout") && h < |s.reg.objs|
    && s.reg.objs[h].ended
  }

  /** From the timer's decision to its end, over any run: the session it ends is paired if and
      only if each side that was missing attached in between, with the id of the session,
      before the session was ended and while no tombstone of that id stood. */
  lemma PairTimeoutEndsPaired(s: State, acts: seq<Action>, t: nat, h: nat)
    requires TimerDecided(s, t, h) && CanRun(s, acts) && TimerEnded(After(s, acts), t, h)
    ensures After(s, acts).reg.objs[h].Paired() <==>
      forall side | s.reg.objs[h].Slot(side).None? :: Offered(s, acts, h, side)
  {
    SlotAfterRun(s, acts, h, true);
    SlotAfterRun(s, acts, h, false);
    var o, o' := s.reg.objs[h], After(s, acts).reg.objs[h];
    assert o'.Paired() <==> o'.Slot(true).Some? && o'.Slot(false).Some?;
  }

  /** The attach calls of the sides that a session lacks. */
  function Completing(ls: LiveSession, agentId: string, mode: string): seq<Action> {
    (if ls.agentConn.None? then [Attach(ls.sessionId, agentId, mode, true)] else [])
    + (if ls.viewerConn.None? then [Attach(ls.sessionId, agentId, mode, false)] else [])
  }

  lemma {:induction false} RunAppend(s: State, acts: seq<Action>, more: seq<Action>)
    requires CanRun(s, acts) && CanRun(After(s, acts), more)
    ensures CanRun(s, acts + more) && After(s, acts + more) == After(After(s, acts), more)
    decreases |acts|
  {
    if acts == [] {
      assert acts + more == more;
    } else {
      RunAppend(Step(s, acts[0]), acts[1..], more);
      RunStart(s, acts[0], acts[1..] + more);
      assert [acts[0]] + (acts[1..] + more) == acts + more;
    }
  }

  /** Any attach leaves the decided timer decided. */
  lemma AttachKeepsDecided(s: State, a: Action, t: nat, h: nat)
    requires TimerDecided(s, t, h) && a.Attach?
    ensures TimerDecided(Step(s, a), t, h) && Step(s, a).reg.endedSessions == s.reg.endedSessions
    ensures Step(s, a).reg.objs[h].sessionId == s.reg.objs[h].sessionId
  {
    StepKeepsInv(s, a);
    if Refuses(s, a) {
      RefusalLeavesRegistry(s, a);
    } else {
      FillChangesOneSlot(s, a);
    }
  }

  /** The decided timer with the sides that are connected. */
  ghost predicate Waits(s: State, t: nat, h: nat, id: string, agent: bool, viewer: bool) {
    && TimerDecided(s, t, h) && id !in s.reg.endedSessions && s.reg.objs[h].sessionId == id
    && s.reg.objs[h].agentConn.Some? == agent && s.reg.objs[h].viewerConn.Some? == viewer
  }

  lemma SideArrives(s: State, t: nat, h: nat, a: Action, agent: bool, viewer: bool)
    requires a.Attach? && Waits(s, t, h, a.id, agent, viewer)
    ensures CanRun(s, [a]) && Waits(After(s, [a]), t, h, a.id, agent || a.isAgent, viewer || !a.isAgent)
  {
    AttachKeepsDecided(s, a, t, h);
    assert OnceOk(s, h);
    SlotAfterAttach(s, a, h, true);
    SlotAfterAttach(s, a, h, false);
    RunStart(s, a, []);
    assert [a] + [] == [a];
  }

  lemma DecidedTimerEnds(s: State, t: nat, h: nat)
    requires TimerDecided(s, t, h)
    ensures CanRun(s, [Run(t), Run(t)]) && TimerEnded(After(s, [Run(t), Run(t)]), t, h)
    ensures var s' := After(s, [Run(t), Run(t)]);
      && s'.reg.objs[h].Paired() == s.reg.objs[h].Paired()
      && s.reg.objs[h].sessionId in s'.reg.endedSessions && s.reg.objs[h].sessionId !in s'.reg.sessions
      && |s'.reg.objs| == |s.reg.objs| && s'.reg.objs[h].sessionId == s.reg.objs[h].sessionId
      && |s'.threads| == |s.threads| && (forall u | 0 <= u < |s.threads| && u != t :: s'.threads[u] == s.threads[u])
  {
    assert OnceOk(s, h);
    HandlesKeptByRun(s, t);
    var s1 := RunStep(s, t);
    assert s1.threads[t] == EndEntered(h, [], "pair_timeout");
    RunStart(s1, Run(t), []);
    RunStart(s, Run(t), [Run(t)]);
    assert [Run(t)] + [Run(t)] == [Run(t), Run(t)];
  }

  /** The sides that are missing can all arrive. */
  lemma SidesArrive(s: State, t: nat, h: nat, agentId: string, mode: string)
    requires TimerDecided(s, t, h) && s.reg.objs[h].sessionId !in s.reg.endedSessions
    ensures var acts := Completing(s.reg.objs[h], agentId, mode);
      CanRun(s, acts) && Waits(After(s, acts), t, h, s.reg.objs[h].sessionId, true, true)
  {
    var ls := s.reg.objs[h];
    var first := if ls.agentConn.None? then [Attach(ls.sessionId, agentId, mode, true)] else [];
    var second := if ls.viewerConn.None? then [Attach(ls.sessionId, agentId, mode, false)] else [];
    if ls.agentConn.None? { SideArrives(s, t, h, first[0], false, ls.viewerConn.Some?); }
    var s1 := After(s, first);
    if ls.viewerConn.None? { SideArrives(s1, t, h, second[0], true, false); }
    RunAppend(s, first, second);
  }

  /** Whatever sides are missing when the timer decides, all of them can still attach before
      it ends the session, which is then a paired one. */
  lemma PairTimeoutCanEndPairedSession(s: State, t: nat, h: nat, agentId: string, mode: string)
    requires TimerDecided(s, t, h) && s.reg.objs[h].sessionId !in s.reg.endedSessions
    ensures var acts := Completing(s.reg.objs[h], agentId, mode) + [Run(t), Run(t)];
      CanRun(s, acts) && TimerEnded(After(s, acts), t, h) && After(s, acts).reg.objs[h].Paired()
  {
    var acts := Completing(s.reg.objs[h], agentId, mode);
    SidesArrive(s, t, h, agentId, mode);
    DecidedTimerEnds(After(s, acts), t, h);
    RunAppend(s, acts, [Run(t), Run(t)]);
  }

  lemma TimerDecides(s: State, t: nat, h: nat)
    requires Inv(s) && t < |s.threads| && s.threads[t] == PairTimer(h)
    requires !s.reg.objs[h].Paired() && s.reg.objs[h].endOnce.Idle?
    ensures CanRun(s, [Run(t)]) && TimerDecided(After(s, [Run(t)]), t, h) && After(s, [Run(t)]).reg == s.reg
    ensures After(s, [Run(t)]).threads == s.threads[t := Ending([h], "pair_timeout")]
  {
    assert ThreadOk(s.threads[t], |s.reg.objs|, |s.conns|) && OnceOk(s, h);
    StepKeepsInv(s, Run(t));
    RunStart(s, Run(t), []);
    assert [Run(t)] + [] == [Run(t)];
  }

  lemma InitIsGood()
    ensures Inv(Init())
  {
  }

  /** Such a state is reached by registering a session and waiting. */
  lemma DecidedTimerIsReachable(id: string, agentId: string, mode: string)
    ensures var acts := [Register(id, agentId, mode)] + [Run(0)];
      && CanRun(Init(), acts) && Waits(After(Init(), acts), 0, 0, id, false, false)
      && |After(Init(), acts).threads| == 1 == |After(Init(), acts).reg.objs|
  {
    var a := Register(id, agentId, mode);
    InitIsGood();
    StepKeepsInv(Init(), a);
    TimerDecides(Step(Init(), a), 0, 0);
    RunStart(Init(), a, [Run(0)]);
  }

  /** Or by attaching one of the sides in between. */
  lemma HalfPairedTimerIsReachable(id: string, agentId: string, mode: string, side: bool)
    ensures var acts := [Register(id, agentId, mode)] + ([Attach(id, agentId, mode, side)] + [Run(0)]);
      CanRun(Init(), acts) && Waits(After(Init(), acts), 0, 0, id, side, !side)
  {
    var a0, a1 := Register(id, agentId, mode), Attach(id, agentId, mode, side);
    InitIsGood();
    StepKeepsInv(Init(), a0);
    var s1 := Step(Init(), a0);
    StepKeepsInv(s1, a1);
    TimerDecides(Step(s1, a1), 0, 0);
    RunStart(s1, a1, [Run(0)]);
    RunStart(Init(), a0, [a1] + [Run(0)]);
  }

  /** A revival is reachable too: the pair timer ends the session, and its id is registered
      again before the tombstone is removed. */
  lemma RevivalIsReachable(id: string, agentId: string, mode: string)
    ensures var acts := [Register(id, agentId, mode)] + [Run(0)] + [Run(0), Run(0)] + [Register(id, agentId, mode)];
      CanRun(Init(), acts) && Revived(After(Init(), acts), id)
  {
    var a := Register(id, agentId, mode);
    var first, last := [a] + [Run(0)], [Run(0), Run(0)];
    DecidedTimerIsReachable(id, agentId, mode);
    DecidedTimerEnds(After(Init(), first), 0, 0);
    RunAppend(Init(), first, last);
    InitIsGood();
    InvOverRun(Init(), first + last);
    RunStart(After(Init(), first + last), a, []);
    assert [a] + [] == [a];
    RunAppend(Init(), first + last, [a]);
  }

  // ---- How long a tombstone stands ----

  /** Only a tombstone that stands has a forgetter, and it has only one. */
  ghost predicate OneForgetter(s: State)
    requires HandlesOk(s)
  {
    && (forall id: string, t: nat | Forgets(s, id, t) :: id in s.reg.endedSessions)
    && (forall id: string, t: nat, u: nat | Forgets(s, id, t) && Forgets(s, id, u) :: t == u)
  }

  lemma ForgetterKeptByCall(s: State, a: Action, id: string, t: nat)
    requires Inv(s) && External(a) && Enabled(s, a) && HandlesOk(Step(s, a)) && Forgets(Step(s, a), id, t)
    ensures Forgets(s, id, t) && Step(s, a).reg.endedSessions == s.reg.endedSessions
  {
    assert t < |s.threads| ==> Step(s, a).threads[t] == s.threads[t];
    if t < |s.threads| && s.threads[t].EndUnregistered? { SlotsFrozenByCall(s, a, s.threads[t].h); }
  }

  /** Where a forgetter comes from: it was one before, or `end` has just set the tombstone, or
      it is the timer that `end` has just started. */
  ghost predicate ForgetterOrigin(s: State, t: nat, id: string, u: nat)
    requires HandlesOk(s) && Enabled(s, Run(t))
  {
    match s.threads[t]
    case EndEntered(h, _, _) => (u != t && Forgets(s, id, u)) || (u == t && id == s.reg.objs[h].sessionId)
    case EndUnregistered(h, _, _) =>
      (u != t && Forgets(s, id, u)) || (u == |s.threads| && id == s.reg.objs[h].sessionId)
    case _ => u != t && Forgets(s, id, u)
  }

  lemma ForgetterAfterRun(s: State, t: nat, id: string, u: nat)
    requires HandlesOk(s) && Enabled(s, Run(t)) && HandlesOk(RunStep(s, t)) && Forgets(RunStep(s, t), id, u)
    ensures ForgetterOrigin(s, t, id, u)
  {
    var s' := RunStep(s, t);
    if u < |s.threads| && s'.threads[u].EndUnregistered? { SlotsFrozenByRun(s, t, s'.threads[u].h); }
  }

  lemma OneForgetterKeptByEnd(s: State, t: nat)
    requires Inv(s) && OneForgetter(s) && NeverRevived(s) && Enabled(s, Run(t)) && s.threads[t].EndEntered?
    requires HandlesOk(RunStep(s, t))
    ensures OneForgetter(RunStep(s, t))
  {
    var s', h := RunStep(s, t), s.threads[t].h;
    assert OnceOk(s, h) && !Revived(s, s.reg.objs[h].sessionId);
    assert s.reg.objs[h].sessionId !in s.reg.endedSessions;
    forall id: string, u: nat | Forgets(s', id, u) ensures id in s'.reg.endedSessions {
      ForgetterAfterRun(s, t, id, u);
    }
    forall id: string, u: nat, v: nat | Forgets(s', id, u) && Forgets(s', id, v) ensures u == v {
      ForgetterAfterRun(s, t, id, u);
      ForgetterAfterRun(s, t, id, v);
    }
  }

  lemma OneForgetterKeptByRest(s: State, t: nat)
    requires Inv(s) && OneForgetter(s) && Enabled(s, Run(t)) && !s.threads[t].EndEntered?
    requires HandlesOk(RunStep(s, t))
    ensures OneForgetter(RunStep(s, t))
  {
    var s' := RunStep(s, t);
    if s.threads[t].EndUnregistered? { assert Forgets(s, s.reg.objs[s.threads[t].h].sessionId, t); }
    if s.threads[t].Tombstone? { assert Forgets(s, s.threads[t].id, t); }
    forall id: string, u: nat | Forgets(s', id, u) ensures id in s'.reg.endedSessions {
      ForgetterAfterRun(s, t, id, u);
    }
    forall id: string, u: nat, v: nat | Forgets(s', id, u) && Forgets(s', id, v) ensures u == v {
      ForgetterAfterRun(s, t, id, u);
      ForgetterAfterRun(s, t, id, v);
    }
  }

  lemma OneForgetterKept(s: State, a: Action)
    requires Inv(s) && OneForgetter(s) && NeverRevived(s) && Enabled(s, a) && HandlesOk(Step(s, a))
    ensures OneForgetter(Step(s, a))
  {
    if a.Run? {
      if s.threads[a.t].EndEntered? { OneForgetterKeptByEnd(s, a.t); } else { OneForgetterKeptByRest(s, a.t); }
    } else {
      var s' := Step(s, a);
      forall id: string, t: nat | Forgets(s', id, t) ensures Forgets(s, id, t) && s'.reg.endedSessions == s.reg.endedSessions {
        ForgetterKeptByCall(s, a, id, t);
      }
    }
  }

  lemma {:induction false} OneForgetterOverRun(s: State, acts: seq<Action>)
    requires Inv(s) && OneForgetter(s) && NeverRevived(s) && CanRun(s, acts) && NoTombstonedRegister(s, acts)
    ensures Inv(After(s, acts)) && OneForgetter(After(s, acts))
    decreases |acts|
  {
    if acts != [] {
      StepKeepsInv(s, acts[0]);
      RevivalStep(s, acts[0]);
      OneForgetterKept(s, acts[0]);
      OneForgetterOverRun(Step(s, acts[0]), acts[1..]);
    }
  }

  /** In every run that registers no tombstoned id, an id is tombstoned if and only if exactly
      one goroutine is there to forget it, so the tombstone stands until its own timer fires. */
  lemma TombstoneHasItsOwnTimer(acts: seq<Action>, id: string)
    requires CanRun(Init(), acts) && NoTombstonedRegister(Init(), acts)
    ensures HandlesOk(After(Init(), acts))
    ensures var s := After(Init(), acts);
      && (id in s.reg.endedSessions <==> HasForgetter(s, id))
      && (forall t: nat, u: nat | Forgets(s, id, t) && Forgets(s, id, u) :: t == u)
  {
    InitIsGood();
    OneForgetterOverRun(Init(), acts);
  }

  /** Without that, an earlier timer of the same id removes the tombstone: from every state with
      such a timer and a session of that id about to be ended, the session can be ended and its
      tombstone be gone before its own timer has even started. */
  lemma EarlierTimerForgets(s: State, t: nat, h: nat, u: nat)
    requires TimerDecided(s, t, h) && u < |s.threads| && s.threads[u] == Tombstone(s.reg.objs[h].sessionId)
    ensures var acts := [Run(t), Run(t)] + [Run(u)];
      CanRun(s, acts) && TimerEnded(After(s, acts), t, h) && s.reg.objs[h].sessionId !in After(s, acts).reg.endedSessions
  {
    DecidedTimerEnds(s, t, h);
    InvOverRun(s, [Run(t), Run(t)]);
    var s' := After(s, [Run(t), Run(t)]);
    assert ThreadOk(s'.threads[u], |s'.reg.objs|, |s'.conns|);
    RunStart(s', Run(u), []);
    assert [Run(u)] + [] == [Run(u)];
    RunAppend(s, [Run(t), Run(t)], [Run(u)]);
  }

  lemma EndStartsTimer(s: State, t: nat)
    requires HandlesOk(s) && t < |s.threads| && s.threads[t].EndUnregistered?
    ensures Enabled(s, Run(t)) && Step(s, Run(t)).reg == s.reg
    ensures var th := s.threads[t];
      Step(s, Run(t)).threads == s.threads[t := EndClosed(th.h, th.queue, th.reason)] + [Tombstone(s.reg.objs[th.h].sessionId)]
  {
    assert ThreadOk(s.threads[t], |s.reg.objs|, |s.conns|);
  }

  lemma SecondRegister(s: State, id: string, a: Action)
    requires Inv(s) && TimerEnded(s, 0, 0) && |s.threads| == 1 && |s.reg.objs| == 1 && s.reg.objs[0].sessionId == id
    requires a.Register? && a.id == id && id !in s.reg.sessions
    ensures var acts := [Run(0)] + ([a] + [Run(2)]);
      && CanRun(s, acts)
      && var s' := After(s, acts);
        TimerDecided(s', 2, 1) && s'.reg.objs[1].sessionId == id && |s'.threads| == 3 && s'.threads[1] == Tombstone(id)
  {
    StepKeepsInv(s, Run(0));
    EndStartsTimer(s, 0);
    var s1 := Step(s, Run(0));
    StepKeepsInv(s1, a);
    var s2 := Step(s1, a);
    assert s2.threads == s1.threads + [PairTimer(1)];
    assert s2.threads[1] == Tombstone(id) && s2.threads[2] == PairTimer(1) && |s2.threads| == 3;
    TimerDecides(s2, 2, 1);
    RunStart(s1, a, [Run(2)]);
    RunStart(s, Run(0), [a] + [Run(2)]);
  }

  /** Such a state is reached by registering an id, letting its session time out, and
      registering it again. */
  lemma EarlierTimerIsReachable(id: string, agentId: string, mode: string) returns (acts: seq<Action>)
    ensures CanRun(Init(), acts)
    ensures var s := After(Init(), acts);
      TimerDecided(s, 2, 1) && s.reg.objs[1].sessionId == id && |s.threads| == 3 && s.threads[1] == Tombstone(id)
  {
    var a := Register(id, agentId, mode);
    var first, last := [a] + [Run(0)] + [Run(0), Run(0)], [Run(0)] + ([a] + [Run(2)]);
    TimedOut(id, agentId, mode);
    InitIsGood();
    InvOverRun(Init(), first);
    SecondRegister(After(Init(), first), id, a);
    RunAppend(Init(), first, last);
    acts := first + last;
  }

  /** The state after a registered session has timed out. */
  lemma TimedOut(id: string, agentId: string, mode: string)
    ensures var acts := [Register(id, agentId, mode)] + [Run(0)] + [Run(0), Run(0)];
      && CanRun(Init(), acts)
      && var s := After(Init(), acts);
        && TimerEnded(s, 0, 0) && |s.threads| == 1 && |s.reg.objs| == 1 && s.reg.objs[0].sessionId == id
        && id !in s.reg.sessions
  {
    var first := [Register(id, agentId, mode)] + [Run(0)];
    DecidedTimerIsReachable(id, agentId, mode);
    var s := After(Init(), first);
    DecidedTimerEnds(s, 0, 0);
    RunAppend(Init(), first, [Run(0), Run(0)]);
  }
}

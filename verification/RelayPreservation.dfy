/** Each step of the relay keeps each invariant. */
module RelayPreservation {
  import opened Basics
  import opened RelayModel
  import opened RelayInvariants

  /** A call from outside keeps every goroutine where it is and adds at most one. */
  predicate External(a: Action) {
    !a.Run?
  }

  lemma HandlesKeptByCall(s: State, a: Action)
    requires HandlesOk(s) && External(a) && Enabled(s, a)
    ensures HandlesOk(Step(s, a))
  {
    if a.EndForAgent? {
      forall i | 0 <= i < |a.order| ensures a.order[i] < |s.reg.objs| {
        assert a.order[i] in a.order;
      }
    }
  }

  lemma HandlesKeptByRun(s: State, t: nat)
    requires HandlesOk(s) && Enabled(s, Run(t))
    ensures HandlesOk(RunStep(s, t))
  {
    var s' := RunStep(s, t);
    assert ThreadOk(s.threads[t], |s.reg.objs|, |s.conns|);
    assert |s'.reg.objs| == |s.reg.objs| && |s'.conns| == |s.conns|;
    forall u | 0 <= u < |s'.threads| ensures ThreadOk(s'.threads[u], |s'.reg.objs|, |s'.conns|) {
      if u < |s.threads| && u != t { assert s'.threads[u] == s.threads[u]; }
    }
  }

  ghost predicate Refuses(s: State, a: Action)
    requires HandlesOk(s) && a.Attach?
  {
    AttachSection(s.reg, a.id, a.agentId, a.mode, a.isAgent, |s.conns|).1.Rejecting?
  }

  /** A refused attach leaves the registry as it was: it never creates a session. */
  lemma RefusalLeavesRegistry(s: State, a: Action)
    requires HandlesOk(s) && RegistryInv(s) && a.Attach? && Refuses(s, a)
    ensures Step(s, a) == s.(threads := s.threads + [Rejecting(|s.conns|)], conns := s.conns + [ConnRecord(Refused(|s.threads|), 0)])
  {
  }

  /** The session that an accepted attach works on. */
  ghost function Target(s: State, a: Action): nat
    requires a.Attach?
  {
    LookupOrCreate(s.reg, a.id, a.agentId, a.mode).1
  }

  /** An accepted attach fills one free slot of the session of its id, and changes no other. */
  lemma FillChangesOneSlot(s: State, a: Action)
    requires HandlesOk(s) && RegistryInv(s) && a.Attach? && !Refuses(s, a)
    ensures var s', k := Step(s, a), Target(s, a);
      && k <= |s.reg.objs| <= |s'.reg.objs| && k < |s'.reg.objs| <= |s.reg.objs| + 1
      && (k == |s.reg.objs| <==> |s'.reg.objs| > |s.reg.objs|)
      && s'.reg.sessions == s.reg.sessions[a.id := k] && s'.reg.endedSessions == s.reg.endedSessions
      && (forall h | 0 <= h < |s.reg.objs| && h != k :: s'.reg.objs[h] == s.reg.objs[h])
      && (var before := if k < |s.reg.objs| then s.reg.objs[k] else Fresh(a.id, a.agentId, a.mode);
          before.sessionId == a.id && !before.ended && before.Slot(a.isAgent).None?
          && s'.reg.objs[k] == before.Fill(a.isAgent, |s.conns|))
      && s'.conns == s.conns + [ConnRecord(Held(k, a.isAgent), 0)]
  {
  }

  lemma RegistryKeptByAttach(s: State, a: Action)
    requires HandlesOk(s) && RegistryInv(s) && a.Attach? && HandlesOk(Step(s, a))
    ensures RegistryInv(Step(s, a))
  {
    if Refuses(s, a) { RefusalLeavesRegistry(s, a); } else { FillChangesOneSlot(s, a); }
  }

  lemma RegistryKeptByCall(s: State, a: Action)
    requires HandlesOk(s) && RegistryInv(s) && External(a) && Enabled(s, a) && HandlesOk(Step(s, a))
    ensures RegistryInv(Step(s, a))
  {
    if a.Attach? { RegistryKeptByAttach(s, a); }
  }

  lemma RegistryKeptByRun(s: State, t: nat)
    requires HandlesOk(s) && RegistryInv(s) && Enabled(s, Run(t)) && HandlesOk(RunStep(s, t))
    ensures RegistryInv(RunStep(s, t))
  {
    var s' := RunStep(s, t);
    assert ThreadOk(s.threads[t], |s.reg.objs|, |s.conns|);
    if s.threads[t].EndEntered? {
      assert forall i <- s'.reg.sessions :: i in s.reg.sessions && s'.reg.sessions[i] == s.reg.sessions[i];
    } else {
      assert s'.reg.sessions == s.reg.sessions;
      assert forall h | 0 <= h < |s.reg.objs| ::
          s'.reg.objs[h].sessionId == s.reg.objs[h].sessionId && s'.reg.objs[h].ended == s.reg.objs[h].ended;
    }
  }

  lemma EndKeptByCall(s: State, a: Action)
    requires HandlesOk(s) && EndInv(s) && External(a) && Enabled(s, a) && HandlesOk(Step(s, a))
    ensures EndInv(Step(s, a))
  {
    var s' := Step(s, a);
    forall h | 0 <= h < |s'.reg.objs| ensures OnceOk(s', h) {
      if h < |s.reg.objs| { assert OnceOk(s, h); }
    }
  }

  /** Goroutine `t` alone moves, possibly starting one new goroutine. */
  ghost predicate OnlyMoves(s: State, s': State, t: nat) {
    && t < |s.threads| <= |s'.threads|
    && (forall u | 0 <= u < |s.threads| && u != t :: s'.threads[u] == s.threads[u])
  }

  lemma EndUntouched(s: State, s': State, t: nat)
    requires HandlesOk(s) && EndInv(s) && HandlesOk(s') && OnlyMoves(s, s', t)
    requires s'.reg.objs == s.reg.objs && s'.marks == s.marks
    requires !s.threads[t].InEnd() && !s'.threads[t].InEnd()
    requires forall u | |s.threads| <= u < |s'.threads| :: !s'.threads[u].InEnd()
    ensures EndInv(s')
  {
    forall h | 0 <= h < |s'.reg.objs| ensures OnceOk(s', h) {
      assert OnceOk(s, h);
    }
  }

  lemma EndKeptByEnding(s: State, t: nat)
    requires HandlesOk(s) && EndInv(s) && Enabled(s, Run(t)) && HandlesOk(RunStep(s, t))
    requires s.threads[t].Ending?
    ensures EndInv(RunStep(s, t))
  {
    var s' := RunStep(s, t);
    assert OnlyMoves(s, s', t);
    forall h | 0 <= h < |s'.reg.objs| ensures OnceOk(s', h) {
      assert OnceOk(s, h);
    }
  }

  lemma EndKeptInside(s: State, t: nat)
    requires HandlesOk(s) && EndInv(s) && Enabled(s, Run(t)) && HandlesOk(RunStep(s, t))
    requires s.threads[t].InEnd()
    ensures EndInv(RunStep(s, t))
  {
    var s' := RunStep(s, t);
    assert OnlyMoves(s, s', t);
    forall h | 0 <= h < |s'.reg.objs| ensures OnceOk(s', h) {
      assert OnceOk(s, h);
    }
  }

  lemma EndKeptByRun(s: State, t: nat)
    requires HandlesOk(s) && EndInv(s) && Enabled(s, Run(t)) && HandlesOk(RunStep(s, t))
    ensures EndInv(RunStep(s, t))
  {
    if s.threads[t].Ending? {
      EndKeptByEnding(s, t);
    } else if s.threads[t].InEnd() {
      EndKeptInside(s, t);
    } else {
      EndUntouched(s, RunStep(s, t), t);
    }
  }

  lemma PumpOkKeptByCall(s: State, a: Action, h: nat)
    requires HandlesOk(s) && RegistryInv(s) && PumpInv(s) && External(a) && Enabled(s, a) && HandlesOk(Step(s, a))
    requires h < |Step(s, a).reg.objs|
    ensures PumpOk(Step(s, a), h)
  {
    var s' := Step(s, a);
    if h < |s.reg.objs| {
      assert PumpOk(s, h);
      if s.reg.objs[h].Paired() && s.pumps[h] == 0 {
        var t: nat :| Starts(s, h, t);
        assert Starts(s', h, t);
      } else if s'.reg.objs[h].Paired() && s'.pumps[h] == 0 {
        assert Starts(s', h, |s.threads|);
      }
    }
  }

  lemma PumpKeptByCall(s: State, a: Action)
    requires HandlesOk(s) && RegistryInv(s) && PumpInv(s) && External(a) && Enabled(s, a) && HandlesOk(Step(s, a))
    ensures PumpInv(Step(s, a))
  {
    var s' := Step(s, a);
    forall h | 0 <= h < |s'.reg.objs| ensures PumpOk(s', h) {
      PumpOkKeptByCall(s, a, h);
    }
    forall t | 0 <= t < |s'.threads| && s'.threads[t].StartingPump?
      ensures s'.reg.objs[s'.threads[t].h].Paired() && s'.pumps[s'.threads[t].h] == 0
    {
      if t == |s.threads| && s'.threads[t].h < |s.reg.objs| { assert PumpOk(s, s'.threads[t].h); }
    }
    forall h: nat, t: nat, u: nat | Starts(s', h, t) && Starts(s', h, u) ensures t == u {
      StarterIsUnique(s, a, h, t, u);
    }
  }

  /** A call is about to start a pump only for a session that nobody is starting one for. */
  lemma StarterIsUnique(s: State, a: Action, h: nat, t: nat, u: nat)
    requires HandlesOk(s) && RegistryInv(s) && PumpInv(s) && External(a) && Enabled(s, a)
    requires Starts(Step(s, a), h, t) && Starts(Step(s, a), h, u)
    ensures t == u
  {
    if t < |s.threads| { assert Starts(s, h, t); }
    if u < |s.threads| { assert Starts(s, h, u); }
  }

  /** A step that starts no pump and fills no slot. */
  lemma PumpUntouched(s: State, s': State, t: nat)
    requires HandlesOk(s) && PumpInv(s) && HandlesOk(s') && OnlyMoves(s, s', t)
    requires s'.pumps == s.pumps && |s'.reg.objs| == |s.reg.objs|
    requires forall h | 0 <= h < |s.reg.objs| :: s'.reg.objs[h].Paired() == s.reg.objs[h].Paired()
    requires !s.threads[t].StartingPump? && !s'.threads[t].StartingPump? && !s'.threads[t].Pumping?
    requires forall u | |s.threads| <= u < |s'.threads| :: !s'.threads[u].StartingPump? && !s'.threads[u].Pumping?
    ensures PumpInv(s')
  {
    forall h | 0 <= h < |s'.reg.objs| ensures PumpOk(s', h) {
      assert PumpOk(s, h);
      if s.reg.objs[h].Paired() && s.pumps[h] == 0 {
        var u: nat :| Starts(s, h, u);
        assert Starts(s', h, u);
      }
    }
    forall h: nat, u: nat, v: nat | Starts(s', h, u) && Starts(s', h, v) ensures u == v {
      assert Starts(s, h, u) && Starts(s, h, v);
    }
  }

  lemma PumpKeptByStart(s: State, t: nat)
    requires HandlesOk(s) && PumpInv(s) && Enabled(s, Run(t)) && HandlesOk(RunStep(s, t))
    requires s.threads[t].StartingPump?
    ensures PumpInv(RunStep(s, t))
  {
    var s' := RunStep(s, t);
    var k := s.threads[t].h;
    assert Starts(s, k, t);
    forall h | 0 <= h < |s'.reg.objs| ensures PumpOk(s', h) {
      assert PumpOk(s, h);
      if h != k && s.reg.objs[h].Paired() && s.pumps[h] == 0 {
        var u: nat :| Starts(s, h, u);
        assert Starts(s', h, u);
      }
    }
    forall h: nat, u: nat, v: nat | Starts(s', h, u) && Starts(s', h, v) ensures u == v {
      assert Starts(s, h, u) && Starts(s, h, v);
    }
    forall u | 0 <= u < |s'.threads| && s'.threads[u].StartingPump?
      ensures s'.reg.objs[s'.threads[u].h].Paired() && s'.pumps[s'.threads[u].h] == 0
    {
      assert Starts(s, s.threads[u].h, u);
    }
  }

  lemma PumpKeptByRun(s: State, t: nat)
    requires HandlesOk(s) && PumpInv(s) && Enabled(s, Run(t)) && HandlesOk(RunStep(s, t))
    ensures PumpInv(RunStep(s, t))
  {
    if s.threads[t].StartingPump? {
      PumpKeptByStart(s, t);
    } else {
      PumpUntouched(s, RunStep(s, t), t);
    }
  }

  lemma OwnerKeptByCall(s: State, a: Action)
    requires HandlesOk(s) && OwnerInv(s) && External(a) && Enabled(s, a) && HandlesOk(Step(s, a))
    ensures OwnerInv(Step(s, a))
  {
    var s' := Step(s, a);
    forall h | 0 <= h < |s'.reg.objs| && !s'.reg.objs[h].ended ensures HasOwner(s', h) {
      if h >= |s.reg.objs| || s'.reg.objs[h].Paired() != s.reg.objs[h].Paired() {
        assert Owns(s', h, |s.threads|);
      } else {
        var t: nat :| Owns(s, h, t);
        assert Owns(s', h, t);
      }
    }
  }

  /** The owner itself moves: it stays the owner or hands over to the goroutine it starts. */
  lemma OwnerMoves(s: State, t: nat, h: nat)
    requires HandlesOk(s) && RegistryInv(s) && EndInv(s) && PumpInv(s)
    requires Enabled(s, Run(t)) && HandlesOk(RunStep(s, t))
    requires h < |s.reg.objs| && !RunStep(s, t).reg.objs[h].ended && Owns(s, h, t)
    ensures HasOwner(RunStep(s, t), h)
  {
    var s' := RunStep(s, t);
    if s.threads[t].StartingPump? || s.threads[t].StartingTimer? {
      assert Owns(s', h, |s.threads|);
    } else {
      if s.threads[t].Ending? && s.threads[t].queue != [] {
        var q := s.threads[t].queue;
        assert q == [q[0]] + q[1..];
        assert OnceOk(s, q[0]);
      }
      assert Owns(s', h, t);
    }
  }

  lemma OwnerKeptByRun(s: State, t: nat)
    requires HandlesOk(s) && RegistryInv(s) && EndInv(s) && PumpInv(s) && OwnerInv(s)
    requires Enabled(s, Run(t)) && HandlesOk(RunStep(s, t))
    ensures OwnerInv(RunStep(s, t))
  {
    var s' := RunStep(s, t);
    forall h | 0 <= h < |s'.reg.objs| && !s'.reg.objs[h].ended ensures HasOwner(s', h) {
      assert !s.reg.objs[h].ended && s'.reg.objs[h].Paired() == s.reg.objs[h].Paired();
      var u: nat :| Owns(s, h, u);
      if u == t {
        OwnerMoves(s, t, h);
      } else {
        assert Owns(s', h, u);
      }
    }
  }

  lemma ConnKeptByRefusal(s: State, a: Action)
    requires HandlesOk(s) && RegistryInv(s) && EndInv(s) && ConnInv(s)
    requires a.Attach? && HandlesOk(Step(s, a)) && Refuses(s, a)
    ensures ConnInv(Step(s, a))
  {
    RefusalLeavesRegistry(s, a);
    var s' := Step(s, a);
    forall c | 0 <= c < |s'.conns| ensures ConnOk(s', c) {
      if c < |s.conns| {
        assert ConnOk(s, c);
        if s.conns[c].place.Held? { assert OnceOk(s, s.conns[c].place.h); }
      }
    }
  }

  lemma ConnOkKeptByFill(s: State, s': State, k: nat, c: nat)
    requires HandlesOk(s) && HandlesOk(s') && EndInv(s) && c < |s.conns| < |s'.conns| && s'.conns[c] == s.conns[c] && ConnOk(s, c)
    requires |s.threads| <= |s'.threads| && forall t | 0 <= t < |s.threads| :: s'.threads[t] == s.threads[t]
    requires |s.reg.objs| <= |s'.reg.objs| && forall h | 0 <= h < |s.reg.objs| && h != k :: s'.reg.objs[h] == s.reg.objs[h]
    requires k < |s.reg.objs| ==>
      LaterThan(s'.reg.objs[k], s.reg.objs[k]) && s'.reg.objs[k].endOnce == s.reg.objs[k].endOnce
    ensures ConnOk(s', c)
  {
    if s.conns[c].place.Held? { assert OnceOk(s, s.conns[c].place.h); }
  }

  lemma ConnKeptByFill(s: State, a: Action)
    requires HandlesOk(s) && RegistryInv(s) && EndInv(s) && ConnInv(s)
    requires a.Attach? && HandlesOk(Step(s, a)) && !Refuses(s, a)
    ensures ConnInv(Step(s, a))
  {
    FillChangesOneSlot(s, a);
    var s', k, n := Step(s, a), Target(s, a), |s.conns|;
    forall c | 0 <= c < n ensures ConnOk(s', c) {
      ConnOkKeptByFill(s, s', k, c);
    }
    if k < |s.reg.objs| { assert OnceOk(s, k); }
    assert ConnOk(s', n);
    forall h, side | 0 <= h < |s'.reg.objs| && s'.reg.objs[h].Slot(side).Some?
      ensures s'.reg.objs[h].Slot(side).value <= n && s'.conns[s'.reg.objs[h].Slot(side).value].place == Held(h, side)
    {
      if h < |s.reg.objs| && (h != k || side != a.isAgent) { assert s'.reg.objs[h].Slot(side) == s.reg.objs[h].Slot(side); }
    }
  }

  lemma ConnKeptByCall(s: State, a: Action)
    requires HandlesOk(s) && RegistryInv(s) && EndInv(s) && ConnInv(s)
    requires External(a) && Enabled(s, a) && HandlesOk(Step(s, a))
    ensures ConnInv(Step(s, a))
  {
    if a.Attach? {
      if Refuses(s, a) { ConnKeptByRefusal(s, a); } else { ConnKeptByFill(s, a); }
    } else {
      var s' := Step(s, a);
      forall c | 0 <= c < |s'.conns| ensures ConnOk(s', c) {
        assert ConnOk(s, c);
        if s.conns[c].place.Held? { assert OnceOk(s, s.conns[c].place.h); }
      }
    }
  }

  /** A step that closes nothing and leaves every `end` on its side of the closing. */
  lemma ConnUntouched(s: State, s': State, t: nat)
    requires HandlesOk(s) && ConnInv(s) && HandlesOk(s') && OnlyMoves(s, s', t)
    requires s'.conns == s.conns && |s'.reg.objs| == |s.reg.objs|
    requires forall h | 0 <= h < |s.reg.objs| ::
        s'.reg.objs[h].agentConn == s.reg.objs[h].agentConn && s'.reg.objs[h].viewerConn == s.reg.objs[h].viewerConn
    requires forall h | 0 <= h < |s.reg.objs| :: ConnsClosed(s', h) == ConnsClosed(s, h)
    requires !s.threads[t].Rejecting? && !s.threads[t].Finished? && !s'.threads[t].Rejecting?
    requires forall u | |s.threads| <= u < |s'.threads| :: !s'.threads[u].Rejecting?
    ensures ConnInv(s')
  {
    forall c | 0 <= c < |s'.conns| ensures ConnOk(s', c) {
      assert ConnOk(s, c);
    }
    forall h, side | 0 <= h < |s'.reg.objs| && s'.reg.objs[h].Slot(side).Some?
      ensures s'.reg.objs[h].Slot(side).value < |s'.conns| && s'.conns[s'.reg.objs[h].Slot(side).value].place == Held(h, side)
    {
      assert s.reg.objs[h].Slot(side) == s'.reg.objs[h].Slot(side);
    }
  }

  lemma ConnKeptByReject(s: State, t: nat)
    requires HandlesOk(s) && ConnInv(s) && Enabled(s, Run(t)) && HandlesOk(RunStep(s, t))
    requires s.threads[t].Rejecting?
    ensures ConnInv(RunStep(s, t))
  {
    var s' := RunStep(s, t);
    forall c | 0 <= c < |s'.conns| ensures ConnOk(s', c) {
      assert ConnOk(s, c);
    }
    forall h, side | 0 <= h < |s'.reg.objs| && s'.reg.objs[h].Slot(side).Some?
      ensures s'.reg.objs[h].Slot(side).value < |s'.conns| && s'.conns[s'.reg.objs[h].Slot(side).value].place == Held(h, side)
    {
      assert s.reg.objs[h].Slot(side) == s'.reg.objs[h].Slot(side);
    }
  }

  /** Closing the two slots of a session closes exactly the connections recorded as held there. */
  lemma CloseBoth(s: State, k: nat, c: nat)
    requires HandlesOk(s) && ConnInv(s) && k < |s.reg.objs| && c < |s.conns|
    ensures |CloseSlot(CloseSlot(s.conns, s.reg.objs[k].agentConn), s.reg.objs[k].viewerConn)| == |s.conns|
    ensures CloseSlot(CloseSlot(s.conns, s.reg.objs[k].agentConn), s.reg.objs[k].viewerConn)[c]
         == ConnRecord(s.conns[c].place,
                       s.conns[c].closes + if s.conns[c].place.Held? && s.conns[c].place.h == k then 1 else 0)
  {
    var ls := s.reg.objs[k];
    assert ls.Slot(true) == ls.agentConn && ls.Slot(false) == ls.viewerConn;
    assert ConnOk(s, c);
  }

  lemma ConnKeptByClose(s: State, t: nat)
    requires HandlesOk(s) && EndInv(s) && ConnInv(s) && Enabled(s, Run(t)) && HandlesOk(RunStep(s, t))
    requires s.threads[t].EndUnregistered?
    ensures ConnInv(RunStep(s, t))
  {
    var s' := RunStep(s, t);
    var k := s.threads[t].h;
    assert OnceOk(s, k);
    forall c | 0 <= c < |s'.conns| ensures ConnOk(s', c) {
      assert ConnOk(s, c);
      CloseBoth(s, k, c);
      if s.conns[c].place.Held? { assert OnceOk(s, s.conns[c].place.h); }
    }
    forall h, side | 0 <= h < |s'.reg.objs| && s'.reg.objs[h].Slot(side).Some?
      ensures s'.reg.objs[h].Slot(side).value < |s'.conns| && s'.conns[s'.reg.objs[h].Slot(side).value].place == Held(h, side)
    {
      assert s.reg.objs[h].Slot(side) == s'.reg.objs[h].Slot(side);
    }
  }

  /** The goroutine inside `end` for `h`, if any, is not the one that moves. */
  lemma ClosednessOfOthers(s: State, s': State, t: nat, h: nat)
    requires HandlesOk(s) && EndInv(s) && OnlyMoves(s, s', t) && h < |s.reg.objs| == |s'.reg.objs|
    requires !s.threads[t].InEnd() || s.threads[t].h != h
    requires s'.reg.objs[h].endOnce == s.reg.objs[h].endOnce
    ensures ConnsClosed(s', h) == ConnsClosed(s, h)
  {
    assert OnceOk(s, h);
  }

  lemma ClosednessKept(s: State, t: nat, h: nat)
    requires HandlesOk(s) && EndInv(s) && Enabled(s, Run(t)) && HandlesOk(RunStep(s, t))
    requires !s.threads[t].EndUnregistered? && h < |s.reg.objs|
    ensures ConnsClosed(RunStep(s, t), h) == ConnsClosed(s, h)
  {
    var s', th := RunStep(s, t), s.threads[t];
    assert OnceOk(s, h);
    if !(th.InEnd() && th.h == h) && s'.reg.objs[h].endOnce == s.reg.objs[h].endOnce {
      ClosednessOfOthers(s, s', t, h);
    }
  }

  lemma ConnKeptByRun(s: State, t: nat)
    requires HandlesOk(s) && EndInv(s) && ConnInv(s) && Enabled(s, Run(t)) && HandlesOk(RunStep(s, t))
    ensures ConnInv(RunStep(s, t))
  {
    if s.threads[t].Rejecting? {
      ConnKeptByReject(s, t);
    } else if s.threads[t].EndUnregistered? {
      ConnKeptByClose(s, t);
    } else {
      forall h | 0 <= h < |s.reg.objs| ensures ConnsClosed(RunStep(s, t), h) == ConnsClosed(s, h) {
        ClosednessKept(s, t, h);
      }
      ConnUntouched(s, RunStep(s, t), t);
    }
  }

  lemma TombstoneKeptByCall(s: State, a: Action)
    requires HandlesOk(s) && TombstoneInv(s) && External(a) && Enabled(s, a) && HandlesOk(Step(s, a))
    ensures TombstoneInv(Step(s, a))
  {
    var s' := Step(s, a);
    forall id <- s'.reg.endedSessions ensures HasForgetter(s', id) {
      var t: nat :| Forgets(s, id, t);
      assert Forgets(s', id, t);
    }
  }

  lemma TombstoneKeptByRun(s: State, t: nat)
    requires HandlesOk(s) && TombstoneInv(s) && Enabled(s, Run(t)) && HandlesOk(RunStep(s, t))
    ensures TombstoneInv(RunStep(s, t))
  {
    var s' := RunStep(s, t);
    assert forall h | 0 <= h < |s.reg.objs| :: s'.reg.objs[h].sessionId == s.reg.objs[h].sessionId;
    forall id <- s'.reg.endedSessions ensures HasForgetter(s', id) {
      if id !in s.reg.endedSessions {
        assert Forgets(s', id, t);
      } else {
        var u: nat :| Forgets(s, id, u);
        assert Forgets(s', id, if u == t then |s.threads| else u);
      }
    }
  }

  /** Every step from a good state leads to a good state. */
  lemma StepKeepsInv(s: State, a: Action)
    requires Inv(s) && Enabled(s, a)
    ensures Inv(Step(s, a))
  {
    if a.Run? {
      HandlesKeptByRun(s, a.t);
      RegistryKeptByRun(s, a.t);
      EndKeptByRun(s, a.t);
      PumpKeptByRun(s, a.t);
      OwnerKeptByRun(s, a.t);
      ConnKeptByRun(s, a.t);
      TombstoneKeptByRun(s, a.t);
    } else {
      HandlesKeptByCall(s, a);
      RegistryKeptByCall(s, a);
      EndKeptByCall(s, a);
      PumpKeptByCall(s, a);
      OwnerKeptByCall(s, a);
      ConnKeptByCall(s, a);
      TombstoneKeptByCall(s, a);
    }
  }
}

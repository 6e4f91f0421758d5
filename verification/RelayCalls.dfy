/** What each call of the relay brings about, and what alone can end a paired session. */
module RelayCalls {
  import opened Basics
  import opened RelayModel
  import opened RelayInvariants
  import opened RelayPreservation
  import opened RelayTheorems

  // ---- A call of `end` ends its sessions ----

  /** Goroutine `t` still has to see to the end of `h`. */
  ghost predicate Pending(s: State, t: nat, h: nat) {
    t < |s.threads| &&
    match s.threads[t]
    case Ending(q, _) => h in q
    case EndEntered(k, q, _) => k == h || h in q
    case EndUnregistered(k, q, _) => k == h || h in q
    case EndClosed(k, q, _) => k == h || h in q
    case _ => false
  }

  ghost predicate PendingOrOver(s: State, t: nat, h: nat) {
    h < |s.reg.objs| && (Pending(s, t, h) || s.reg.objs[h].endOnce.Over?)
  }

  lemma OverStays(s: State, a: Action, h: nat)
    requires Inv(s) && Enabled(s, a) && h < |s.reg.objs| && s.reg.objs[h].endOnce.Over?
    ensures h < |Step(s, a).reg.objs| && Step(s, a).reg.objs[h].endOnce.Over?
  {
    if a.Run? {
      assert ThreadOk(s.threads[a.t], |s.reg.objs|, |s.conns|);
      if s.threads[a.t].InEnd() { assert s.reg.objs[s.threads[a.t].h].endOnce == Running(a.t); }
    }
  }

  lemma OwnStep(s: State, t: nat, h: nat)
    requires Inv(s) && Enabled(s, Run(t)) && h < |s.reg.objs| && Pending(s, t, h)
    ensures PendingOrOver(RunStep(s, t), t, h)
  {
    if s.threads[t].Ending? {
      var q := s.threads[t].queue;
      assert q == [q[0]] + q[1..];
    }
  }

  lemma PendingKept(s: State, a: Action, t: nat, h: nat)
    requires Inv(s) && Enabled(s, a) && PendingOrOver(s, t, h)
    ensures PendingOrOver(Step(s, a), t, h)
  {
    if s.reg.objs[h].endOnce.Over? {
      OverStays(s, a, h);
    } else if a == Run(t) {
      OwnStep(s, t, h);
    } else {
      if a.Run? { assert OnlyMoves(s, RunStep(s, a.t), a.t); }
      assert Step(s, a).threads[t] == s.threads[t];
    }
  }

  lemma {:induction false} PendingOverRun(s: State, acts: seq<Action>, t: nat, h: nat)
    requires Inv(s) && CanRun(s, acts) && PendingOrOver(s, t, h)
    ensures Inv(After(s, acts)) && PendingOrOver(After(s, acts), t, h)
    decreases |acts|
  {
    if acts != [] {
      StepKeepsInv(s, acts[0]);
      PendingKept(s, acts[0], t, h);
      PendingOverRun(Step(s, acts[0]), acts[1..], t, h);
    }
  }

  /** The session has ended in every respect: marked, out of the registry, reported once, and
      every connection it ever held closed once. */
  ghost predicate Gone(s: State, h: nat) {
    && h < |s.reg.objs| && h < |s.marks|
    && s.reg.objs[h].ended
    && (s.reg.objs[h].sessionId in s.reg.sessions ==> s.reg.sessions[s.reg.objs[h].sessionId] != h)
    && |s.marks[h]| == 1
    && (forall c | 0 <= c < |s.conns| && s.conns[c].place.Held? && s.conns[c].place.h == h :: s.conns[c].closes == 1)
  }

  lemma OverIsGone(s: State, h: nat)
    requires Inv(s) && h < |s.reg.objs| && s.reg.objs[h].endOnce.Over?
    ensures Gone(s, h)
  {
    assert OnceOk(s, h);
    forall c | 0 <= c < |s.conns| && s.conns[c].place.Held? && s.conns[c].place.h == h ensures s.conns[c].closes == 1 {
      assert ConnOk(s, c);
    }
  }

  lemma FinishedMeansGone(s: State, acts: seq<Action>, t: nat, h: nat)
    requires Inv(s) && CanRun(s, acts) && h < |s.reg.objs| && Pending(s, t, h)
    ensures t < |After(s, acts).threads|
    ensures After(s, acts).threads[t].Finished? ==> Gone(After(s, acts), h)
  {
    PendingOverRun(s, acts, t, h);
    ThreadsStay(s, acts, t);
    if After(s, acts).threads[t].Finished? { OverIsGone(After(s, acts), h); }
  }

  lemma {:induction false} ThreadsStay(s: State, acts: seq<Action>, t: nat)
    requires Inv(s) && CanRun(s, acts) && t < |s.threads|
    ensures t < |After(s, acts).threads|
    decreases |acts|
  {
    if acts != [] {
      StepKeepsInv(s, acts[0]);
      ThreadCountGrows(s, acts[0]);
      ThreadsStay(Step(s, acts[0]), acts[1..], t);
    }
  }

  lemma ThreadCountGrows(s: State, a: Action)
    requires HandlesOk(s) && Enabled(s, a)
    ensures |s.threads| <= |Step(s, a).threads|
  {
  }

  /** EndSession ends the session registered under the id: in every continuation in which the
      call has finished, that session is gone.  For an unknown id it does nothing. */
  lemma EndSessionEnds(s: State, id: string, reason: string, acts: seq<Action>)
    requires Inv(s) && CanRun(Step(s, EndSession(id, reason)), acts)
    ensures id !in s.reg.sessions ==> Step(s, EndSession(id, reason)) == s
    ensures id in s.reg.sessions ==>
      var s', t := After(Step(s, EndSession(id, reason)), acts), |s.threads|;
      t < |s'.threads| && (s'.threads[t].Finished? ==> Gone(s', s.reg.sessions[id]))
  {
    if id in s.reg.sessions {
      StepKeepsInv(s, EndSession(id, reason));
      FinishedMeansGone(Step(s, EndSession(id, reason)), acts, |s.threads|, s.reg.sessions[id]);
    }
  }

  /** EndSessionsForAgent ends every session of the agent that was registered at the call. */
  lemma EndForAgentEnds(s: State, agentId: string, order: seq<nat>, acts: seq<Action>, id: string)
    requires Inv(s) && Enabled(s, EndForAgent(agentId, order)) && CanRun(Step(s, EndForAgent(agentId, order)), acts)
    requires id in s.reg.sessions && s.reg.objs[s.reg.sessions[id]].agentId == agentId
    ensures var s', t := After(Step(s, EndForAgent(agentId, order)), acts), |s.threads|;
      t < |s'.threads| && (s'.threads[t].Finished? ==> Gone(s', s.reg.sessions[id]))
  {
    StepKeepsInv(s, EndForAgent(agentId, order));
    FinishedMeansGone(Step(s, EndForAgent(agentId, order)), acts, |s.threads|, s.reg.sessions[id]);
  }

  // ---- Who calls `end`, on what, and with which reason ----

  /** Goroutine `t` is in a call of `end`, or between two, that gives reason `r`. */
  ghost predicate Ends(s: State, t: nat, r: string) {
    t < |s.threads| && (s.threads[t].Ending? || s.threads[t].InEnd()) && s.threads[t].reason == r
  }

  /** A goroutine comes to call `end` in four ways only: a pair timer that finds its session
      registered and one side missing, a pump that is over, EndSession on a registered id, and
      EndSessionsForAgent on the agent's sessions. */
  lemma EndIsCalledBy(s: State, a: Action, t: nat, r: string)
    requires Inv(s) && Enabled(s, a) && Ends(Step(s, a), t, r) && !Ends(s, t, r)
    ensures var th' := Step(s, a).threads[t];
      && th'.Ending?
      && match a
         case Run(u) =>
           u == t && HandlesOk(s) &&
           (if s.threads[t].PairTimer? then
              var h := s.threads[t].h; var ls := s.reg.objs[h];
              th'.queue == [h] && r == "pair_timeout" && ls.sessionId in s.reg.sessions && s.reg.sessions[ls.sessionId] == h
              && (ls.agentConn == None || ls.viewerConn == None)
            else s.threads[t].Pumping? && th'.queue == [s.threads[t].h] && r == "connection_closed")
         case EndSession(id, reason) =>
           t == |s.threads| && r == reason && id in s.reg.sessions && th'.queue == [s.reg.sessions[id]]
         case EndForAgent(agentId, order) => t == |s.threads| && r == "agent_offline" && th'.queue == order
         case _ => false
  {
    if a.Run? { assert ThreadOk(s.threads[a.t], |s.reg.objs|, |s.conns|); }
  }

  /** A pair timer that finds its session gone or paired does nothing. */
  lemma TimerLeavesPaired(s: State, t: nat, h: nat)
    requires Inv(s) && t < |s.threads| && s.threads[t] == PairTimer(h)
    requires h < |s.reg.objs| && s.reg.objs[h].agentConn.Some? && s.reg.objs[h].viewerConn.Some?
    ensures Enabled(s, Run(t)) && Step(s, Run(t)) == s.(threads := s.threads[t := Finished])
  {
  }

  ghost predicate ReasonPending(s: State, t: nat, h: nat, r: string) {
    && h < |s.reg.objs| && h < |s.marks|
    && (s.marks[h] == [r] || (t < |s.threads| && s.threads[t].InEnd() && s.threads[t].h == h && s.threads[t].reason == r))
  }

  lemma ReasonKeptByCall(s: State, a: Action, t: nat, h: nat, r: string)
    requires Inv(s) && External(a) && Enabled(s, a) && ReasonPending(s, t, h, r)
    ensures ReasonPending(Step(s, a), t, h, r)
  {
    assert t < |s.threads| ==> Step(s, a).threads[t] == s.threads[t];
    assert Step(s, a).marks[h] == s.marks[h];
  }

  lemma ReasonKeptByRun(s: State, u: nat, t: nat, h: nat, r: string)
    requires Inv(s) && Enabled(s, Run(u)) && ReasonPending(s, t, h, r)
    ensures ReasonPending(RunStep(s, u), t, h, r)
  {
    assert OnceOk(s, h) && OnlyMoves(s, RunStep(s, u), u);
    if s.threads[u].EndClosed? { assert s.reg.objs[s.threads[u].h].endOnce == Running(u); }
  }

  /** The goroutine that `endOnce` admits reports its own reason: after any run in which the end
      of the session is over, MarkEnded has been requested with exactly that reason. */
  lemma {:induction false} MarkCarriesReason(s: State, acts: seq<Action>, t: nat, h: nat, r: string)
    requires Inv(s) && CanRun(s, acts) && ReasonPending(s, t, h, r)
    ensures h < |After(s, acts).reg.objs| && h < |After(s, acts).marks|
    ensures After(s, acts).reg.objs[h].endOnce.Over? ==> After(s, acts).marks[h] == [r]
    decreases |acts|
  {
    if acts == [] {
      assert OnceOk(s, h);
      assert !s.reg.objs[h].endOnce.Over? || s.marks[h] == [r];
    } else {
      StepKeepsInv(s, acts[0]);
      if acts[0].Run? { ReasonKeptByRun(s, acts[0].t, t, h, r); } else { ReasonKeptByCall(s, acts[0], t, h, r); }
      MarkCarriesReason(Step(s, acts[0]), acts[1..], t, h, r);
    }
  }

  // ---- A paired session lives until something ends it ----

  ghost predicate Undisturbed(s: State, h: nat) {
    && h < |s.reg.objs| && s.reg.objs[h].Paired() && !s.reg.objs[h].ended
    && (forall t: nat :: !Pending(s, t, h))
  }

  /** What can end it: its pump is over, or a call of EndSession or EndSessionsForAgent. */
  ghost predicate Disturbs(s: State, a: Action, h: nat)
    requires h < |s.reg.objs|
  {
    match a
    case Run(t) => t < |s.threads| && s.threads[t] == Pumping(h)
    case EndSession(id, _) => id == s.reg.objs[h].sessionId
    case EndForAgent(agentId, _) => agentId == s.reg.objs[h].agentId
    case _ => false
  }

  lemma NoNewEnderByRun(s: State, u: nat, h: nat, t: nat)
    requires Inv(s) && Enabled(s, Run(u)) && Undisturbed(s, h) && !Disturbs(s, Run(u), h)
    ensures !Pending(RunStep(s, u), t, h)
  {
    assert ThreadOk(s.threads[u], |s.reg.objs|, |s.conns|) && !Pending(s, u, h);
    assert OnlyMoves(s, RunStep(s, u), u);
    if t < |s.threads| && t != u {
      assert !Pending(s, t, h);
    } else if s.threads[u].Ending? && s.threads[u].queue != [] {
      var q := s.threads[u].queue;
      assert q == [q[0]] + q[1..];
    }
  }

  lemma NoNewEnderByCall(s: State, a: Action, h: nat, t: nat)
    requires Inv(s) && External(a) && Enabled(s, a) && Undisturbed(s, h) && !Disturbs(s, a, h)
    ensures !Pending(Step(s, a), t, h)
  {
    if t < |s.threads| {
      assert Step(s, a).threads[t] == s.threads[t] && !Pending(s, t, h);
    }
  }

  lemma PairedSessionKept(s: State, a: Action, h: nat)
    requires Inv(s) && Enabled(s, a) && Undisturbed(s, h) && !Disturbs(s, a, h)
    ensures Undisturbed(Step(s, a), h)
  {
    forall t: nat ensures !Pending(Step(s, a), t, h) {
      if a.Run? { NoNewEnderByRun(s, a.t, h, t); } else { NoNewEnderByCall(s, a, h, t); }
    }
    if a.Run? {
      SlotsFrozenByRun(s, a.t, h);
      assert !Pending(s, a.t, h);
    } else {
      SlotsFrozenByCall(s, a, h);
    }
  }

  ghost predicate NeverDisturbed(s: State, acts: seq<Action>, h: nat)
    requires CanRun(s, acts) && h < |s.reg.objs|
    decreases |acts|
  {
    acts != [] ==>
      && !Disturbs(s, acts[0], h)
      && h < |Step(s, acts[0]).reg.objs| && NeverDisturbed(Step(s, acts[0]), acts[1..], h)
  }

  /** A paired session that nobody is ending stays alive, registered and connected over every
      run in which its pump is not over and no call asks for its end: no pair timer, no
      tombstone and no other session can end it. */
  lemma {:induction false} PairedSessionLives(s: State, acts: seq<Action>, h: nat)
    requires Inv(s) && CanRun(s, acts) && Undisturbed(s, h) && NeverDisturbed(s, acts, h)
    ensures var s' := After(s, acts);
      && Undisturbed(s', h)
      && s'.reg.objs[h].sessionId in s'.reg.sessions && s'.reg.sessions[s'.reg.objs[h].sessionId] == h
      && s'.reg.objs[h].agentConn == s.reg.objs[h].agentConn && s'.reg.objs[h].viewerConn == s.reg.objs[h].viewerConn
    decreases |acts|
  {
    if acts != [] {
      var s1 := Step(s, acts[0]);
      StepKeepsInv(s, acts[0]);
      PairedSessionKept(s, acts[0], h);
      if acts[0].Run? { SlotsFrozenByRun(s, acts[0].t, h); } else { SlotsFrozenByCall(s, acts[0], h); }
      PairedSessionLives(s1, acts[1..], h);
    }
  }

  // ---- What a new session records ----

  /** The registered session of `id` has just been created, for this agent and in this mode. */
  ghost predicate NewSession(s: State, id: string, agentId: string, mode: string) {
    id in s.reg.sessions && |s.reg.objs| > 0 && s.reg.sessions[id] == |s.reg.objs| - 1 &&
    var ls := s.reg.objs[|s.reg.objs| - 1];
    ls.sessionId == id && ls.agentId == agentId && ls.mode == mode && !ls.ended
  }

  /** Register and attach create the session with the id, agent and mode they are given: Register
      without connections, attach with its own and no other. */
  lemma CreationRecords(s: State, a: Action)
    requires Inv(s) && (a.Register? || (a.Attach? && a.id !in s.reg.endedSessions)) && a.id !in s.reg.sessions
    ensures |Step(s, a).reg.objs| == |s.reg.objs| + 1 && NewSession(Step(s, a), a.id, a.agentId, a.mode)
    ensures var ls := Step(s, a).reg.objs[|s.reg.objs|];
      && ls.agentConn == (if a.Attach? && a.isAgent then Some(|s.conns|) else None)
      && ls.viewerConn == (if a.Attach? && !a.isAgent then Some(|s.conns|) else None)
  {
  }
}

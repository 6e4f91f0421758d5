/** What every interleaving of the relay keeps, one predicate per concern. */
module RelayInvariants {
  import opened Basics
  import opened RelayModel

  /** `b` is a later value of the same session object as `a`. */
  predicate LaterThan(b: LiveSession, a: LiveSession) {
    && b.sessionId == a.sessionId && b.agentId == a.agentId && b.mode == a.mode
    && (a.agentConn.Some? || a.ended ==> b.agentConn == a.agentConn)
    && (a.viewerConn.Some? || a.ended ==> b.viewerConn == a.viewerConn)
    && (a.ended ==> b.ended)
  }

  /** The registry holds exactly the sessions that have not ended, each under its own id. */
  ghost predicate RegistryInv(s: State)
    requires HandlesOk(s)
  {
    && (forall id <- s.reg.sessions :: s.reg.objs[s.reg.sessions[id]].sessionId == id && !s.reg.objs[s.reg.sessions[id]].ended)
    && (forall h | 0 <= h < |s.reg.objs| && !s.reg.objs[h].ended ::
          s.reg.objs[h].sessionId in s.reg.sessions && s.reg.sessions[s.reg.objs[h].sessionId] == h)
  }

  ghost predicate OnceOk(s: State, h: nat)
    requires HandlesOk(s) && h < |s.reg.objs|
  {
    var ls := s.reg.objs[h];
    match ls.endOnce
    case Idle => !ls.ended && s.marks[h] == []
    case Running(t) =>
      && t < |s.threads| && s.threads[t].InEnd() && s.threads[t].h == h
      && (ls.ended <==> !s.threads[t].EndEntered?) && s.marks[h] == []
    case Over => ls.ended && |s.marks[h]| == 1
  }

  /** `end` runs once per session object, by the goroutine that `endOnce` admitted, and
      MarkEnded has been requested once when it is over and never before. */
  ghost predicate EndInv(s: State)
    requires HandlesOk(s)
  {
    && (forall h | 0 <= h < |s.reg.objs| :: OnceOk(s, h))
    && (forall t | 0 <= t < |s.threads| && s.threads[t].InEnd() :: s.reg.objs[s.threads[t].h].endOnce == Running(t))
  }

  ghost predicate Starts(s: State, h: nat, t: nat) {
    t < |s.threads| && s.threads[t] == StartingPump(h)
  }

  ghost predicate PumpOk(s: State, h: nat)
    requires HandlesOk(s) && h < |s.reg.objs|
  {
    && s.pumps[h] <= 1
    && (s.pumps[h] == 1 ==> s.reg.objs[h].Paired())
    && (s.reg.objs[h].Paired() && s.pumps[h] == 0 ==> exists t: nat :: Starts(s, h, t))
  }

  /** A pump starts at most once per session object, only when both connections are set;
      a paired session either has had its pump or one attach call is about to start it. */
  ghost predicate PumpInv(s: State)
    requires HandlesOk(s)
  {
    && (forall h | 0 <= h < |s.reg.objs| :: PumpOk(s, h))
    && (forall t | 0 <= t < |s.threads| && s.threads[t].StartingPump? ::
          s.reg.objs[s.threads[t].h].Paired() && s.pumps[s.threads[t].h] == 0)
    && (forall h: nat, t: nat, u: nat | Starts(s, h, t) && Starts(s, h, u) :: t == u)
    && (forall t | 0 <= t < |s.threads| && s.threads[t].Pumping? :: s.pumps[s.threads[t].h] == 1)
  }

  /** Goroutine `t` will bring session `h` to its end: a pair timer while the session is
      unpaired, a pump once it is paired, or a call of `end` that is already under way. */
  ghost predicate Owns(s: State, h: nat, t: nat)
    requires h < |s.reg.objs|
  {
    t < |s.threads| &&
    match s.threads[t]
    case PairTimer(k) => k == h && !s.reg.objs[h].Paired()
    case StartingTimer(k) => k == h && !s.reg.objs[h].Paired()
    case StartingPump(k) => k == h
    case Pumping(k) => k == h
    case Ending(q, _) => h in q
    case EndEntered(k, q, _) => k == h || h in q
    case EndUnregistered(_, q, _) => h in q
    case EndClosed(_, q, _) => h in q
    case _ => false
  }

  ghost predicate HasOwner(s: State, h: nat)
    requires h < |s.reg.objs|
  {
    exists t: nat :: Owns(s, h, t)
  }

  ghost predicate OwnerInv(s: State)
    requires HandlesOk(s)
  {
    forall h | 0 <= h < |s.reg.objs| && !s.reg.objs[h].ended :: HasOwner(s, h)
  }

  /** The connections of `h` have been closed: its `end` is past the closing step. */
  ghost predicate ConnsClosed(s: State, h: nat)
    requires h < |s.reg.objs|
  {
    var o := s.reg.objs[h].endOnce;
    o.Over? || (o.Running? && o.runner < |s.threads| && s.threads[o.runner].EndClosed?)
  }

  ghost predicate ConnOk(s: State, c: nat)
    requires c < |s.conns|
  {
    match s.conns[c].place
    case Refused(t) =>
      t < |s.threads| &&
      ((s.threads[t] == Rejecting(c) && s.conns[c].closes == 0) || (s.threads[t].Finished? && s.conns[c].closes == 1))
    case Held(h, side) =>
      h < |s.reg.objs| && s.reg.objs[h].Slot(side) == Some(c) &&
      s.conns[c].closes == if ConnsClosed(s, h) then 1 else 0
  }

  /** Every connection handed to `attach` was refused by one call, which closes it once, or
      sits in one slot of one session, whose `end` closes it once. */
  ghost predicate ConnInv(s: State)
    requires HandlesOk(s)
  {
    && (forall c | 0 <= c < |s.conns| :: ConnOk(s, c))
    && (forall t | 0 <= t < |s.threads| && s.threads[t].Rejecting? :: s.conns[s.threads[t].conn].place == Refused(t))
    && (forall h, side | 0 <= h < |s.reg.objs| && s.reg.objs[h].Slot(side).Some? ::
          s.reg.objs[h].Slot(side).value < |s.conns| && s.conns[s.reg.objs[h].Slot(side).value].place == Held(h, side))
  }

  ghost predicate Forgets(s: State, id: string, t: nat)
    requires HandlesOk(s)
  {
    t < |s.threads| &&
    (s.threads[t] == Tombstone(id) ||
     (s.threads[t].EndUnregistered? && s.reg.objs[s.threads[t].h].sessionId == id))
  }

  ghost predicate HasForgetter(s: State, id: string)
    requires HandlesOk(s)
  {
    exists t: nat :: Forgets(s, id, t)
  }

  /** Every tombstone has a timer that will remove it, or an `end` about to start one. */
  ghost predicate TombstoneInv(s: State)
    requires HandlesOk(s)
  {
    forall id <- s.reg.endedSessions :: HasForgetter(s, id)
  }

  ghost predicate Inv(s: State) {
    HandlesOk(s) && RegistryInv(s) && EndInv(s) && PumpInv(s) && OwnerInv(s) && ConnInv(s) && TombstoneInv(s)
  }
}

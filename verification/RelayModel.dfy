/** The remote-desktop relay as a transition system.

    Every mutex section of the relay is one atomic step.  What a goroutine still has to
    do after it released the mutex is its `Thread` value, so that every interleaving of
    attach calls, pair timers, pumps, `end` calls and tombstone timers is a sequence of
    `Action`s.  A `*liveSession` is a handle: an index into `objs`. */
module RelayModel {
  import opened Basics

  /** State of the `sync.Once` that guards `end`: `Running(t)` names the goroutine inside it. */
  datatype Once = Idle | Running(runner: nat) | Over

  datatype LiveSession = LiveSession(
    sessionId: string,
    agentId: string,
    mode: string,
    agentConn: Option<nat>,
    viewerConn: Option<nat>,
    ended: bool,
    endOnce: Once)
  {
    predicate Paired() {
      agentConn.Some? && viewerConn.Some?
    }

    function Slot(isAgent: bool): Option<nat> {
      if isAgent then agentConn else viewerConn
    }

    function Fill(isAgent: bool, conn: nat): LiveSession {
      if isAgent then this.(agentConn := Some(conn)) else this.(viewerConn := Some(conn))
    }
  }

  /** What one goroutine (or one call that is past its mutex section) does next. */
  datatype Thread =
    | Finished
    | Rejecting(conn: nat)                                    // about to close a refused connection
    | StartingPump(h: nat)                                    // attach: about to run `go r.pump(ls)`
    | StartingTimer(h: nat)                                   // attach: about to run `go r.waitPairTimeout(ls)`
    | PairTimer(h: nat)                                       // waitPairTimeout, before its mutex section
    | Pumping(h: nat)                                         // pump, before its call of `end`
    | Ending(queue: seq<nat>, reason: string)                 // about to call `end` on queue[0]
    | EndEntered(h: nat, queue: seq<nat>, reason: string)     // inside endOnce, before the mutex section
    | EndUnregistered(h: nat, queue: seq<nat>, reason: string) // after it, connections still open
    | EndClosed(h: nat, queue: seq<nat>, reason: string)      // connections closed, MarkEnded not requested yet
    | Tombstone(id: string)                                   // time.AfterFunc that forgets an ended id
  {
    predicate InEnd() {
      EndEntered? || EndUnregistered? || EndClosed?
    }
  }

  /** The fields that `Relay.mu` protects. */
  datatype Registry = Registry(
    sessions: map<string, nat>,
    endedSessions: set<string>,
    objs: seq<LiveSession>)

  /** Where a connection handed to `attach` went, and how often the relay closed it. */
  datatype Place = Refused(t: nat) | Held(h: nat, isAgent: bool)
  datatype ConnRecord = ConnRecord(place: Place, closes: nat)

  /** The registry, the goroutines, and three histories: pumps started and reasons of
      MarkEnded requests per session object, and the fate of every connection. */
  datatype State = State(
    reg: Registry,
    threads: seq<Thread>,
    pumps: seq<nat>,
    marks: seq<seq<string>>,
    conns: seq<ConnRecord>)

  datatype Action =
    | Register(id: string, agentId: string, mode: string)
    | Attach(id: string, agentId: string, mode: string, isAgent: bool)
    | EndSession(id: string, reason: string)
    | EndForAgent(agentId: string, order: seq<nat>)
    | Run(t: nat)

  function Init(): State {
    State(Registry(map[], {}, []), [], [], [], [])
  }

  function Fresh(id: string, agentId: string, mode: string): LiveSession {
    LiveSession(id, agentId, mode, None, None, false, Idle)
  }

  // ---- The mutex sections, on the registry alone ----

  /** attach, lines 164-168: the session of this id, created if the registry has none. */
  function LookupOrCreate(reg: Registry, id: string, agentId: string, mode: string): (Registry, nat)
  {
    if id in reg.sessions then (reg, reg.sessions[id])
    else
      var h := |reg.objs|;
      (reg.(sessions := reg.sessions[id := h], objs := reg.objs + [Fresh(id, agentId, mode)]), h)
  }

  /** attach, lines 155-209: the new registry and what the call does once unlocked. */
  function AttachSection(reg: Registry, id: string, agentId: string, mode: string, isAgent: bool, conn: nat): (Registry, Thread)
    requires forall i <- reg.sessions :: reg.sessions[i] < |reg.objs|
  {
    if id in reg.endedSessions then (reg, Rejecting(conn))
    else
      var (reg', h) := LookupOrCreate(reg, id, agentId, mode);
      var ls := reg'.objs[h];
      if ls.ended || ls.Slot(isAgent).Some? then (reg', Rejecting(conn))
      else
        var filled := ls.Fill(isAgent, conn);
        (reg'.(objs := reg'.objs[h := filled]),
         if filled.Paired() then StartingPump(h)
         else if id !in reg.sessions then StartingTimer(h)
         else Finished)
  }

  /** waitPairTimeout, line 216. */
  predicate StillWaiting(reg: Registry, h: nat)
    requires h < |reg.objs|
  {
    var ls := reg.objs[h];
    ls.sessionId in reg.sessions && reg.sessions[ls.sessionId] == h && !ls.Paired()
  }

  /** end, lines 296-302. */
  function EndSection(reg: Registry, h: nat): Registry
    requires h < |reg.objs|
  {
    var ls := reg.objs[h];
    Registry(
      if ls.sessionId in reg.sessions && reg.sessions[ls.sessionId] == h then reg.sessions - {ls.sessionId} else reg.sessions,
      reg.endedSessions + {ls.sessionId},
      reg.objs[h := ls.(ended := true)])
  }

  /** EndSessionsForAgent, lines 352-359: `order` lists the agent's registered sessions,
      in whatever order the map iteration produced. */
  ghost predicate ListsSessionsOf(reg: Registry, agentId: string, order: seq<nat>)
    requires forall i <- reg.sessions :: reg.sessions[i] < |reg.objs|
  {
    && (forall i <- reg.sessions :: reg.objs[reg.sessions[i]].agentId == agentId ==> reg.sessions[i] in order)
    && (forall h <- order :: exists i <- reg.sessions :: reg.sessions[i] == h && reg.objs[h].agentId == agentId)
  }

  // ---- The transition system ----

  ghost predicate HandlesOk(s: State) {
    && |s.pumps| == |s.reg.objs| == |s.marks|
    && (forall i <- s.reg.sessions :: s.reg.sessions[i] < |s.reg.objs|)
    && (forall t | 0 <= t < |s.threads| :: ThreadOk(s.threads[t], |s.reg.objs|, |s.conns|))
  }

  predicate QueueOk(q: seq<nat>, objs: nat) {
    forall i | 0 <= i < |q| :: q[i] < objs
  }

  predicate ThreadOk(th: Thread, objs: nat, conns: nat) {
    match th
    case Finished | Tombstone(_) => true
    case Rejecting(c) => c < conns
    case StartingPump(h) => h < objs
    case StartingTimer(h) => h < objs
    case PairTimer(h) => h < objs
    case Pumping(h) => h < objs
    case Ending(q, _) => QueueOk(q, objs)
    case EndEntered(h, q, _) => h < objs && QueueOk(q, objs)
    case EndUnregistered(h, q, _) => h < objs && QueueOk(q, objs)
    case EndClosed(h, q, _) => h < objs && QueueOk(q, objs)
  }

  /** A goroutine can move unless it is finished or waits for a running `endOnce`. */
  predicate CanMove(s: State, t: nat)
    requires t < |s.threads| && ThreadOk(s.threads[t], |s.reg.objs|, |s.conns|)
  {
    var th := s.threads[t];
    !th.Finished? && !(th.Ending? && th.queue != [] && s.reg.objs[th.queue[0]].endOnce.Running?)
  }

  ghost predicate Enabled(s: State, a: Action)
    requires HandlesOk(s)
  {
    match a
    case Register(_, _, _) => true
    case Attach(_, _, _, _) => true
    case EndSession(_, _) => true
    case EndForAgent(agentId, order) => ListsSessionsOf(s.reg, agentId, order)
    case Run(t) => t < |s.threads| && CanMove(s, t)
  }

  function RegisterStep(s: State, id: string, agentId: string, mode: string): State {
    if id in s.reg.sessions then s
    else
      var (reg', h) := LookupOrCreate(s.reg, id, agentId, mode);
      s.(reg := reg', threads := s.threads + [PairTimer(h)], pumps := s.pumps + [0], marks := s.marks + [[]])
  }

  function AttachStep(s: State, id: string, agentId: string, mode: string, isAgent: bool): State
    requires forall i <- s.reg.sessions :: s.reg.sessions[i] < |s.reg.objs|
  {
    var c := |s.conns|;
    var (reg', th) := AttachSection(s.reg, id, agentId, mode, isAgent, c);
    var grew := |reg'.objs| > |s.reg.objs|;
    var place := if th.Rejecting? then Refused(|s.threads|) else Held(LookupOrCreate(s.reg, id, agentId, mode).1, isAgent);
    State(reg', s.threads + [th],
          if grew then s.pumps + [0] else s.pumps,
          if grew then s.marks + [[]] else s.marks,
          s.conns + [ConnRecord(place, 0)])
  }

  function SetOnce(reg: Registry, h: nat, o: Once): Registry
    requires h < |reg.objs|
  {
    reg.(objs := reg.objs[h := reg.objs[h].(endOnce := o)])
  }

  function CloseSlot(conns: seq<ConnRecord>, slot: Option<nat>): seq<ConnRecord> {
    match slot
    case None => conns
    case Some(c) => if c < |conns| then conns[c := conns[c].(closes := conns[c].closes + 1)] else conns
  }

  function RunStep(s: State, t: nat): State
    requires |s.pumps| == |s.reg.objs| == |s.marks|
    requires t < |s.threads| && ThreadOk(s.threads[t], |s.reg.objs|, |s.conns|) && CanMove(s, t)
  {
    match s.threads[t]
    case Rejecting(c) =>
      s.(threads := s.threads[t := Finished], conns := CloseSlot(s.conns, Some(c)))
    case StartingPump(h) =>
      s.(threads := s.threads[t := Finished] + [Pumping(h)], pumps := s.pumps[h := s.pumps[h] + 1])
    case StartingTimer(h) =>
      s.(threads := s.threads[t := Finished] + [PairTimer(h)])
    case PairTimer(h) =>
      s.(threads := s.threads[t := if StillWaiting(s.reg, h) then Ending([h], "pair_timeout") else Finished])
    case Pumping(h) =>
      s.(threads := s.threads[t := Ending([h], "connection_closed")])
    case Ending(q, r) =>
      if q == [] then s.(threads := s.threads[t := Finished])
      else if s.reg.objs[q[0]].endOnce.Over? then s.(threads := s.threads[t := Ending(q[1..], r)])
      else s.(reg := SetOnce(s.reg, q[0], Running(t)), threads := s.threads[t := EndEntered(q[0], q[1..], r)])
    case EndEntered(h, q, r) =>
      s.(reg := EndSection(s.reg, h), threads := s.threads[t := EndUnregistered(h, q, r)])
    case EndUnregistered(h, q, r) =>
      var ls := s.reg.objs[h];
      s.(threads := s.threads[t := EndClosed(h, q, r)] + [Tombstone(ls.sessionId)],
         conns := CloseSlot(CloseSlot(s.conns, ls.agentConn), ls.viewerConn))
    case EndClosed(h, q, r) =>
      s.(reg := SetOnce(s.reg, h, Over), threads := s.threads[t := Ending(q, r)], marks := s.marks[h := s.marks[h] + [r]])
    case Tombstone(id) =>
      s.(reg := s.reg.(endedSessions := s.reg.endedSessions - {id}), threads := s.threads[t := Finished])
  }

  ghost function Step(s: State, a: Action): State
    requires HandlesOk(s) && Enabled(s, a)
  {
    match a
    case Register(id, agentId, mode) => RegisterStep(s, id, agentId, mode)
    case Attach(id, agentId, mode, isAgent) => AttachStep(s, id, agentId, mode, isAgent)
    case EndSession(id, reason) =>
      if id in s.reg.sessions then s.(threads := s.threads + [Ending([s.reg.sessions[id]], reason)]) else s
    case EndForAgent(_, order) => s.(threads := s.threads + [Ending(order, "agent_offline")])
    case Run(t) => RunStep(s, t)
  }

  /** A run: the actions are enabled one after the other. */
  ghost predicate CanRun(s: State, acts: seq<Action>)
    decreases |acts|
  {
    acts == [] || (HandlesOk(s) && Enabled(s, acts[0]) && CanRun(Step(s, acts[0]), acts[1..]))
  }

  ghost function After(s: State, acts: seq<Action>): State
    requires CanRun(s, acts)
    decreases |acts|
  {
    if acts == [] then s else After(Step(s, acts[0]), acts[1..])
  }
}

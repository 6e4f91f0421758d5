/** What holds of the relay in every run. */
module RelayTheorems {
  import opened Basics
  import opened RelayModel
  import opened RelayInvariants
  import opened RelayPreservation
  import opened Sums

  lemma {:induction false} InvOverRun(s: State, acts: seq<Action>)
    requires Inv(s) && CanRun(s, acts)
    ensures Inv(After(s, acts))
    decreases |acts|
  {
    if acts != [] {
      StepKeepsInv(s, acts[0]);
      InvOverRun(Step(s, acts[0]), acts[1..]);
    }
  }

  /** In every interleaving: a registered session is live, is the only live one of its id
      and has a goroutine that will end it; a session object starts at most one pump, and
      only when paired, and requests MarkEnded at most once, when its `end` is over; every
      connection ever handed to `attach` is accounted for. */
  lemma RelaySafety(acts: seq<Action>)
    requires CanRun(Init(), acts)
    ensures var s := After(Init(), acts);
      && HandlesOk(s)
      && (forall id <- s.reg.sessions :: !s.reg.objs[s.reg.sessions[id]].ended && HasOwner(s, s.reg.sessions[id]))
      && (forall h, k | 0 <= h < |s.reg.objs| && 0 <= k < |s.reg.objs| && !s.reg.objs[h].ended && !s.reg.objs[k].ended
            && s.reg.objs[h].sessionId == s.reg.objs[k].sessionId :: h == k)
      && (forall h | 0 <= h < |s.reg.objs| ::
            && s.pumps[h] <= 1 && (s.pumps[h] == 1 ==> s.reg.objs[h].Paired())
            && |s.marks[h]| <= 1 && (|s.marks[h]| == 1 <==> s.reg.objs[h].endOnce.Over?))
      && (forall c | 0 <= c < |s.conns| :: ConnOk(s, c))
  {
    InvOverRun(Init(), acts);
    var s := After(Init(), acts);
    forall h | 0 <= h < |s.reg.objs|
      ensures s.pumps[h] <= 1 && (s.pumps[h] == 1 ==> s.reg.objs[h].Paired())
      ensures |s.marks[h]| <= 1 && (|s.marks[h]| == 1 <==> s.reg.objs[h].endOnce.Over?)
    {
      assert PumpOk(s, h) && OnceOk(s, h);
    }
  }

  /** The check `if ls.ended` of attach never fires: the registry holds no ended session. */
  lemma EndedBranchUnreachable(acts: seq<Action>, id: string)
    requires CanRun(Init(), acts) && id in After(Init(), acts).reg.sessions
    ensures HandlesOk(After(Init(), acts)) && !After(Init(), acts).reg.objs[After(Init(), acts).reg.sessions[id]].ended
  {
    InvOverRun(Init(), acts);
  }

  // ---- Slots are written once and never after `end` ----

  lemma SlotsFrozenByCall(s: State, a: Action, h: nat)
    requires HandlesOk(s) && External(a) && Enabled(s, a) && h < |s.reg.objs|
    ensures h < |Step(s, a).reg.objs| && LaterThan(Step(s, a).reg.objs[h], s.reg.objs[h])
  {
  }

  lemma SlotsFrozenByRun(s: State, t: nat, h: nat)
    requires HandlesOk(s) && Enabled(s, Run(t)) && h < |s.reg.objs|
    ensures h < |RunStep(s, t).reg.objs| && LaterThan(RunStep(s, t).reg.objs[h], s.reg.objs[h])
  {
  }

  lemma {:induction false} SlotsFrozen(s: State, acts: seq<Action>, h: nat)
    requires Inv(s) && CanRun(s, acts) && h < |s.reg.objs|
    ensures h < |After(s, acts).reg.objs| && LaterThan(After(s, acts).reg.objs[h], s.reg.objs[h])
    decreases |acts|
  {
    if acts != [] {
      StepKeepsInv(s, acts[0]);
      if acts[0].Run? { SlotsFrozenByRun(s, acts[0].t, h); } else { SlotsFrozenByCall(s, acts[0], h); }
      SlotsFrozen(Step(s, acts[0]), acts[1..], h);
    }
  }

  // ---- Nothing leaks: once callers stop, the goroutines finish and leave nothing behind ----

  /** An upper bound on the steps a goroutine and those it starts can still take. */
  function Rank(th: Thread): nat {
    match th
    case Finished => 0
    case Rejecting(_) => 1
    case Tombstone(_) => 1
    case Ending(q, _) => 1 + 6 * |q|
    case EndEntered(_, q, _) => 6 + 6 * |q|
    case EndUnregistered(_, q, _) => 5 + 6 * |q|
    case EndClosed(_, q, _) => 2 + 6 * |q|
    case PairTimer(_) => 8
    case Pumping(_) => 8
    case StartingPump(_) => 9
    case StartingTimer(_) => 9
  }

  /** The moved goroutine and the one it starts rank below what moved. */
  ghost predicate Falls(before: seq<Thread>, after: seq<Thread>, t: nat) {
    && t < |before| <= |after| <= |before| + 1
    && after[..|before|] == before[t := after[t]]
    && Rank(after[t]) + (if |after| > |before| then Rank(after[|before|]) else 0) < Rank(before[t])
  }

  lemma RankFallsInEnd(s: State, t: nat)
    requires HandlesOk(s) && Enabled(s, Run(t)) && (s.threads[t].Ending? || s.threads[t].InEnd())
    ensures Falls(s.threads, RunStep(s, t).threads, t)
  {
  }

  lemma RankFalls(s: State, t: nat)
    requires HandlesOk(s) && Enabled(s, Run(t))
    ensures Falls(s.threads, RunStep(s, t).threads, t)
  {
    if s.threads[t].Ending? || s.threads[t].InEnd() { RankFallsInEnd(s, t); }
  }

  lemma RunLowersRank(s: State, t: nat)
    requires HandlesOk(s) && Enabled(s, Run(t))
    ensures Sum(RunStep(s, t).threads, Rank) < Sum(s.threads, Rank)
  {
    RankFalls(s, t);
    RankSum(s.threads, RunStep(s, t).threads, t);
  }

  lemma RankSum(ths: seq<Thread>, ths': seq<Thread>, t: nat)
    requires Falls(ths, ths', t)
    ensures Sum(ths', Rank) < Sum(ths, Rank)
  {
    SumUpdate(ths, Rank, t, ths'[t]);
    if |ths'| > |ths| {
      assert ths' == ths'[..|ths|] + [ths'[|ths|]];
      SumAppend(ths'[..|ths|], Rank, ths'[|ths|]);
    } else {
      assert ths' == ths'[..|ths|];
    }
  }

  ghost predicate Quiet(s: State) {
    forall t | 0 <= t < |s.threads| :: s.threads[t].Finished?
  }

  /** No deadlock: while a goroutine is unfinished, some goroutine can move. */
  lemma SomeoneCanMove(s: State) returns (t: nat)
    requires Inv(s) && !Quiet(s)
    ensures Enabled(s, Run(t))
  {
    t :| t < |s.threads| && !s.threads[t].Finished?;
    assert ThreadOk(s.threads[t], |s.reg.objs|, |s.conns|);
    if !CanMove(s, t) {
      var h := s.threads[t].queue[0];
      assert OnceOk(s, h);
      t := s.reg.objs[h].endOnce.runner;
    }
  }

  /** Nothing is left behind: no registered session, no tombstone, every session ended and
      reported exactly once, pumped exactly once if it was paired and never otherwise, and
      every connection closed exactly once. */
  ghost predicate Clean(s: State) {
    && s.reg.sessions == map[]
    && s.reg.endedSessions == {}
    && |s.marks| == |s.reg.objs| == |s.pumps|
    && (forall h | 0 <= h < |s.reg.objs| ::
          s.reg.objs[h].ended && |s.marks[h]| == 1 && s.pumps[h] == if s.reg.objs[h].Paired() then 1 else 0)
    && (forall c | 0 <= c < |s.conns| :: s.conns[c].closes == 1)
  }

  lemma QuietIsClean(s: State)
    requires Inv(s) && Quiet(s)
    ensures Clean(s)
  {
    forall h | 0 <= h < |s.reg.objs|
      ensures s.reg.objs[h].ended && |s.marks[h]| == 1 && s.pumps[h] == if s.reg.objs[h].Paired() then 1 else 0
    {
      assert !HasOwner(s, h);
      assert OnceOk(s, h) && PumpOk(s, h);
      assert !exists t: nat :: Starts(s, h, t);
    }
    forall c | 0 <= c < |s.conns| ensures s.conns[c].closes == 1 {
      assert ConnOk(s, c);
      if s.conns[c].place.Held? { assert OnceOk(s, s.conns[c].place.h); }
    }
    assert forall id: string :: !HasForgetter(s, id);
    assert s.reg.sessions.Keys == {};
  }

  lemma StuckIsClean(s: State)
    requires Inv(s)
    ensures (forall t: nat :: !Enabled(s, Run(t))) ==> Clean(s)
  {
    if !Quiet(s) {
      var t := SomeoneCanMove(s);
    } else {
      QuietIsClean(s);
    }
  }

  ghost predicate Internal(acts: seq<Action>) {
    forall i | 0 <= i < |acts| :: acts[i].Run?
  }

  lemma {:induction false} InternalRunsAreBounded(s: State, acts: seq<Action>)
    requires Inv(s) && CanRun(s, acts) && Internal(acts)
    ensures |acts| <= Sum(s.threads, Rank)
    decreases |acts|
  {
    if acts != [] {
      StepKeepsInv(s, acts[0]);
      RunLowersRank(s, acts[0].t);
      InternalRunsAreBounded(Step(s, acts[0]), acts[1..]);
    }
  }

  /** After any run, once no further call arrives, the relay drains however its goroutines
      are scheduled: at most Sum(.., Rank) steps are possible, some step is possible as long as
      a goroutine is unfinished, and when none is possible nothing is left behind. */
  lemma RelayDrains(before: seq<Action>, acts: seq<Action>)
    requires CanRun(Init(), before) && CanRun(After(Init(), before), acts) && Internal(acts)
    ensures |acts| <= Sum(After(Init(), before).threads, Rank)
    ensures var s := After(After(Init(), before), acts);
      HandlesOk(s) && ((forall t: nat :: !Enabled(s, Run(t))) ==> Clean(s))
  {
    InvOverRun(Init(), before);
    InternalRunsAreBounded(After(Init(), before), acts);
    InvOverRun(After(Init(), before), acts);
    StuckIsClean(After(After(Init(), before), acts));
  }
}

/** The agent's execution slots: every command that runs in a thread of its own holds one of
    four slots.  The dispatchers, the command threads and the two mutex sections (reserve,
    release) interleave freely. */
module ExecSlots {
  import opened Sums

  const MAX_CONCURRENT: nat := 4

  /** The six message types that answer with a CMD_RESULT. */
  datatype Kind = ExecScript | InstallPkg | Reboot | CollectInventory | InstallPatches | FileTransfer

  /** Where a command is.  `Reserved`, `Allocated`, `Failing`, `Running` and `Reported` hold a slot. */
  datatype Pc =
    | Validating(valid: bool)   // the dispatcher looks at the message body
    | Reserving                 // about to enter the reserving mutex section
    | Reserved                  // about to allocate its context
    | Allocated                 // about to create its thread
    | Failing                   // allocation or thread creation failed: about to release
    | Refusing                  // about to build the error CMD_RESULT, without a slot
    | Running                   // the command thread works
    | Reported                  // its CMD_RESULT is built; about to release
    | Done
  {
    predicate HoldsSlot() {
      Reserved? || Allocated? || Failing? || Running? || Reported?
    }
  }

  /** A command with its history: CMD_RESULTs built, slots taken and given back. */
  datatype Command = Command(kind: Kind, pc: Pc, results: nat, taken: nat, released: nat)

  datatype State = State(active: int, commands: seq<Command>)

  datatype Action =
    | Receive(kind: Kind, valid: bool)
    | Move(i: nat, fails: bool)   // `fails` settles an allocation or thread creation

  function Init(): State {
    State(0, [])
  }

  /** Reboot and inventory requests have no body to reject. */
  predicate Enabled(s: State, a: Action) {
    match a
    case Receive(kind, valid) => kind.Reboot? || kind.CollectInventory? ==> valid
    case Move(i, _) => i < |s.commands| && !s.commands[i].pc.Done?
  }

  /** One command moves; the second component is the change of exec_active_count. */
  function MoveCommand(c: Command, active: int, fails: bool): (Command, int)
    requires !c.pc.Done?
  {
    match c.pc
    case Validating(valid) => (c.(pc := if valid then Reserving else Refusing), 0)
    case Reserving =>
      if active >= MAX_CONCURRENT then (c.(pc := Refusing), 0) else (c.(pc := Reserved, taken := c.taken + 1), 1)
    case Reserved => (c.(pc := if fails then Failing else Allocated), 0)
    case Allocated => (c.(pc := if fails then Failing else Running), 0)
    case Failing => (c.(pc := Refusing, released := c.released + 1), -1)
    case Refusing => (c.(pc := Done, results := c.results + 1), 0)
    case Running => (c.(pc := Reported, results := c.results + 1), 0)
    case Reported => (c.(pc := Done, released := c.released + 1), -1)
  }

  function Step(s: State, a: Action): State
    requires Enabled(s, a)
  {
    match a
    case Receive(kind, valid) => s.(commands := s.commands + [Command(kind, Validating(valid), 0, 0, 0)])
    case Move(i, fails) =>
      var (c, d) := MoveCommand(s.commands[i], s.active, fails);
      State(s.active + d, s.commands[i := c])
  }

  ghost predicate CanRun(s: State, acts: seq<Action>)
    decreases |acts|
  {
    acts == [] || (Enabled(s, acts[0]) && CanRun(Step(s, acts[0]), acts[1..]))
  }

  ghost function After(s: State, acts: seq<Action>): State
    requires CanRun(s, acts)
    decreases |acts|
  {
    if acts == [] then s else After(Step(s, acts[0]), acts[1..])
  }

  // ---- Conservation ----

  function Held(c: Command): nat {
    if c.pc.HoldsSlot() then 1 else 0
  }

  function Holding(cs: seq<Command>): nat {
    Sum(cs, Held)
  }

  /** Its slot is taken at most once and given back at most once, and its CMD_RESULT is built
      once, when the command is over or just before it gives its slot back. */
  predicate Accounted(c: Command) {
    && c.taken == c.released + Held(c)
    && c.taken <= 1
    && (c.pc.Validating? || c.pc.Reserving? ==> c.taken == 0)
    && c.results == if c.pc.Done? || c.pc.Reported? then 1 else 0
  }

  ghost predicate Inv(s: State) {
    && s.active == Holding(s.commands) <= MAX_CONCURRENT
    && (forall i | 0 <= i < |s.commands| :: Accounted(s.commands[i]))
  }

  lemma MoveIsAccounted(c: Command, active: int, fails: bool)
    requires Accounted(c) && !c.pc.Done? && active <= MAX_CONCURRENT
    ensures Accounted(MoveCommand(c, active, fails).0)
    ensures MoveCommand(c, active, fails).1 == Held(MoveCommand(c, active, fails).0) - Held(c)
    ensures active + MoveCommand(c, active, fails).1 <= MAX_CONCURRENT
  {
  }

  lemma MoveKeepsInv(s: State, i: nat, fails: bool)
    requires Inv(s) && Enabled(s, Move(i, fails))
    ensures Inv(Step(s, Move(i, fails)))
  {
    var s' := Step(s, Move(i, fails));
    var c := s'.commands[i];
    assert s'.commands == s.commands[i := c];
    MoveIsAccounted(s.commands[i], s.active, fails);
    SumUpdate(s.commands, Held, i, c);
    forall k | 0 <= k < |s'.commands| ensures Accounted(s'.commands[k]) {
      if k != i { assert s'.commands[k] == s.commands[k]; }
    }
  }

  lemma ReceiveKeepsInv(s: State, c: Command)
    requires Inv(s) && Accounted(c) && Held(c) == 0
    ensures Inv(s.(commands := s.commands + [c]))
  {
    SumAppend(s.commands, Held, c);
    var cs := s.commands + [c];
    forall k | 0 <= k < |cs| ensures Accounted(cs[k]) {
      if k < |s.commands| { assert cs[k] == s.commands[k]; }
    }
  }

  lemma StepKeepsInv(s: State, a: Action)
    requires Inv(s) && Enabled(s, a)
    ensures Inv(Step(s, a))
  {
    match a
    case Receive(kind, valid) => ReceiveKeepsInv(s, Command(kind, Validating(valid), 0, 0, 0));
    case Move(i, fails) => MoveKeepsInv(s, i, fails);
  }

  lemma {:induction false} InvOverRun(s: State, acts: seq<Action>)
    requires Inv(s) && CanRun(s, acts)
    ensures Inv(After(s, acts))
    decreases |acts|
  {
    if acts != [] {
      StepKeepsInv(s, acts[0]);
      InvOverRun(Step(s, acts[0]), acts[1..]);
    }
  }

  /** In every interleaving exec_active_count is the number of slots in use, between 0 and 4;
      no command gives a slot back twice or without having taken it, or builds two results. */
  lemma SlotsConserved(acts: seq<Action>)
    requires CanRun(Init(), acts)
    ensures var s := After(Init(), acts);
      && 0 <= s.active == Holding(s.commands) <= MAX_CONCURRENT
      && (forall i | 0 <= i < |s.commands| ::
            s.commands[i].released <= s.commands[i].taken <= 1 && s.commands[i].results <= 1)
  {
    InvOverRun(Init(), acts);
    var s := After(Init(), acts);
    forall i | 0 <= i < |s.commands|
      ensures s.commands[i].released <= s.commands[i].taken <= 1 && s.commands[i].results <= 1
    {
      assert Accounted(s.commands[i]);
    }
  }

  // ---- Every command finishes with exactly one result and no slot ----

  function Rank(c: Command): nat {
    match c.pc
    case Validating(_) => 7
    case Reserving => 6
    case Reserved => 5
    case Allocated => 4
    case Failing => 2
    case Refusing => 1
    case Running => 2
    case Reported => 1
    case Done => 0
  }

  lemma {:induction false} MovesAreBounded(s: State, acts: seq<Action>)
    requires CanRun(s, acts) && forall k | 0 <= k < |acts| :: acts[k].Move?
    ensures |acts| <= Sum(s.commands, Rank)
    decreases |acts|
  {
    if acts != [] {
      var s' := Step(s, acts[0]);
      SumUpdate(s.commands, Rank, acts[0].i, s'.commands[acts[0].i]);
      assert s'.commands == s.commands[acts[0].i := s'.commands[acts[0].i]];
      MovesAreBounded(s', acts[1..]);
    }
  }

  /** However allocations, thread creations and schedules turn out, once messages stop the
      commands all finish within Sum(.., Rank) moves; then no slot is in use, each command has
      built exactly one CMD_RESULT, and each slot taken has been given back exactly once. */
  lemma CommandsFinish(before: seq<Action>, acts: seq<Action>)
    requires CanRun(Init(), before) && CanRun(After(Init(), before), acts) && forall k | 0 <= k < |acts| :: acts[k].Move?
    ensures |acts| <= Sum(After(Init(), before).commands, Rank)
    ensures var s := After(After(Init(), before), acts);
      (forall i: nat :: !Enabled(s, Move(i, false))) ==>
        s.active == 0 && forall i | 0 <= i < |s.commands| :: s.commands[i].results == 1 && s.commands[i].released == s.commands[i].taken
  {
    InvOverRun(Init(), before);
    MovesAreBounded(After(Init(), before), acts);
    InvOverRun(After(Init(), before), acts);
    var s := After(After(Init(), before), acts);
    if forall i: nat :: !Enabled(s, Move(i, false)) {
      forall i | 0 <= i < |s.commands| ensures s.commands[i].pc.Done? && Accounted(s.commands[i]) {
        assert !Enabled(s, Move(i, false));
      }
      SumZero(s.commands, Held);
    }
  }

  // ---- Which commands run ----

  /** In the run from `s`, command `i` finds all four slots in use when it tries to reserve. */
  ghost predicate FindsNoSlot(s: State, acts: seq<Action>, i: nat)
    requires CanRun(s, acts)
    decreases |acts|
  {
    acts != [] &&
    ((acts[0].Move? && acts[0].i == i && s.commands[i].pc == Reserving && Holding(s.commands) == 4)
     || FindsNoSlot(Step(s, acts[0]), acts[1..], i))
  }

  /** Its allocation or its thread creation fails. */
  ghost predicate FailsToStart(s: State, acts: seq<Action>, i: nat)
    requires CanRun(s, acts)
    decreases |acts|
  {
    acts != [] &&
    ((acts[0] == Move(i, true) && (s.commands[i].pc == Reserved || s.commands[i].pc == Allocated))
     || FailsToStart(Step(s, acts[0]), acts[1..], i))
  }

  /** Its thread does its work. */
  ghost predicate Works(s: State, acts: seq<Action>, i: nat)
    requires CanRun(s, acts)
    decreases |acts|
  {
    acts != [] &&
    ((acts[0].Move? && acts[0].i == i && s.commands[i].pc == Running)
     || Works(Step(s, acts[0]), acts[1..], i))
  }

  /** What is in store for a command that is at `pc`, has taken `taken` slots, and is done at the
      end of the run. */
  ghost predicate Fate(pc: Pc, taken: nat, taken': nat, noSlot: bool, fails: bool, works: bool) {
    match pc
    case Validating(valid) =>
      if valid then taken' == taken + (if noSlot then 0 else 1) && (works <==> !noSlot && !fails)
      else taken' == taken && !works
    case Reserving => taken' == taken + (if noSlot then 0 else 1) && (works <==> !noSlot && !fails)
    case Reserved => taken' == taken && (works <==> !fails) && !noSlot
    case Allocated => taken' == taken && (works <==> !fails) && !noSlot
    case Running => taken' == taken && works && !noSlot && !fails
    case _ => taken' == taken && !works && !noSlot && !fails
  }

  lemma FateOfMove(c: Command, active: int, fails: bool, taken': nat, noSlot: bool, failsLater: bool, works: bool)
    requires !c.pc.Done? && active <= 4
    requires var c' := MoveCommand(c, active, fails).0; Fate(c'.pc, c'.taken, taken', noSlot, failsLater, works)
    ensures Fate(c.pc, c.taken, taken', (c.pc == Reserving && active == 4) || noSlot,
                 (fails && (c.pc == Reserved || c.pc == Allocated)) || failsLater, c.pc == Running || works)
  {
  }

  lemma OthersStay(s: State, a: Action, i: nat)
    requires Enabled(s, a) && i < |s.commands| && !(a.Move? && a.i == i)
    ensures i < |Step(s, a).commands| && Step(s, a).commands[i] == s.commands[i]
  {
  }

  lemma OwnMove(s: State, fails: bool, i: nat)
    requires Enabled(s, Move(i, fails))
    ensures i < |Step(s, Move(i, fails)).commands|
    ensures Step(s, Move(i, fails)).commands[i] == MoveCommand(s.commands[i], s.active, fails).0
    ensures Step(s, Move(i, fails)).commands[i].kind == s.commands[i].kind
  {
  }

  lemma {:induction false} CommandStays(s: State, acts: seq<Action>, i: nat)
    requires CanRun(s, acts) && i < |s.commands|
    ensures i < |After(s, acts).commands| && After(s, acts).commands[i].kind == s.commands[i].kind
    decreases |acts|
  {
    if acts != [] {
      if acts[0].Move? && acts[0].i == i { OwnMove(s, acts[0].fails, i); } else { OthersStay(s, acts[0], i); }
      CommandStays(Step(s, acts[0]), acts[1..], i);
    }
  }

  lemma {:induction false} FateOverRun(s: State, acts: seq<Action>, i: nat)
    requires Inv(s) && CanRun(s, acts) && i < |s.commands| && i < |After(s, acts).commands|
    requires After(s, acts).commands[i].pc.Done?
    ensures Fate(s.commands[i].pc, s.commands[i].taken, After(s, acts).commands[i].taken,
                 FindsNoSlot(s, acts, i), FailsToStart(s, acts, i), Works(s, acts, i))
    decreases |acts|
  {
    if acts != [] {
      var a, s' := acts[0], Step(s, acts[0]);
      StepKeepsInv(s, a);
      var n, f, w := FindsNoSlot(s', acts[1..], i), FailsToStart(s', acts[1..], i), Works(s', acts[1..], i);
      if a.Move? && a.i == i {
        OwnMove(s, a.fails, i);
        FateOverRun(s', acts[1..], i);
        FateOfMove(s.commands[i], s.active, a.fails, After(s, acts).commands[i].taken, n, f, w);
      } else {
        OthersStay(s, a, i);
        FateOverRun(s', acts[1..], i);
      }
    }
  }

  /** Whatever happens around it, a command that is received and eventually done ends as its
      message and the slots decide: with an invalid body it takes no slot and does no work;
      with a valid one it is refused a slot if and only if four were in use when it tried, and
      it works if and only if it got one and neither its allocation nor its thread failed. */
  lemma CommandDecided(s: State, kind: Kind, valid: bool, acts: seq<Action>)
    requires Inv(s) && Enabled(s, Receive(kind, valid)) && CanRun(Step(s, Receive(kind, valid)), acts)
    ensures var s1, i := Step(s, Receive(kind, valid)), |s.commands|;
      var s' := After(s1, acts);
      && i < |s'.commands| && s'.commands[i].kind == kind
      && (s'.commands[i].pc.Done? ==>
            && s'.commands[i].results == 1
            && (!valid ==> s'.commands[i].taken == 0 && !Works(s1, acts, i))
            && (valid ==> (s'.commands[i].taken == 0 <==> FindsNoSlot(s1, acts, i)))
            && (valid ==> (Works(s1, acts, i) <==> s'.commands[i].taken == 1 && !FailsToStart(s1, acts, i))))
  {
    var s1, i := Step(s, Receive(kind, valid)), |s.commands|;
    StepKeepsInv(s, Receive(kind, valid));
    CommandStays(s1, acts, i);
    InvOverRun(s1, acts);
    assert s1.commands[i].pc == Validating(valid) && s1.commands[i].taken == 0;
    if After(s1, acts).commands[i].pc.Done? {
      FateOverRun(s1, acts, i);
      assert Accounted(After(s1, acts).commands[i]);
    }
  }

  /** The counter under its mutex; `holders` are the commands whose slot it counts. */
  class Slots {
    var execActiveCount: int
    ghost var holders: set<nat>

    ghost predicate Valid()
      reads this
    {
      execActiveCount == |holders| <= MAX_CONCURRENT
    }

    constructor ()
      ensures Valid() && holders == {}
    {
      execActiveCount, holders := 0, {};
    }

    method Reserve(ghost command: nat) returns (ok: bool)
      requires Valid() && command !in holders
      modifies this
      ensures Valid() && (ok <==> |old(holders)| < MAX_CONCURRENT)
      ensures holders == if ok then old(holders) + {command} else old(holders)
    {
      if execActiveCount >= MAX_CONCURRENT {
        return false;
      }
      execActiveCount := execActiveCount + 1;
      holders := holders + {command};
      ok := true;
    }

    method Release(ghost command: nat)
      requires Valid() && command in holders
      modifies this
      ensures Valid() && holders == old(holders) - {command}
    {
      execActiveCount := execActiveCount - 1;
      holders := holders - {command};
    }
  }
}

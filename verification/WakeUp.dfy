/** The wake-up protocol between the threads that send and the libwebsockets thread that
    writes, as a transition system over every interleaving.

    A sender tests `connected`, enqueues under the mutex, then reads `lws_ctx` twice (the
    test and the argument) and cancels the service of the context it read; the service
    thread turns a pending cancel into a WRITEABLE request.  Contexts come and go with every
    connection attempt and are numbered.  A message sent from a libwebsockets callback
    (HELLO, PONG) takes the same path and counts as a sender. */
module WakeUp {
  import opened Basics
  import opened SendQueue
  import opened Sums

  datatype Sender =
    | Resting
    | Checked(data: string)     // saw connected == true, not yet in the mutex section
    | Enqueued                  // message queued, lws_ctx not tested yet
    | SawContext                // lws_ctx was not NULL, not read again yet
    | Cancelling(ctx: nat)      // about to call lws_cancel_service(ctx)

  datatype Service =
    | Down                      // no context
    | Polling                   // inside lws_service, no callback running
    | Opened                    // ESTABLISHED: wsi and connected set, WRITEABLE not requested yet
    | Writing                   // WRITEABLE, before its mutex section
    | CancelSeen                // EVENT_WAIT_CANCELLED, before its mutex section
    | CancelRead(pending: bool) // after it
    | Destroyed                 // context destroyed, conn->lws_ctx still set

  datatype State = State(
    queue: seq<string>,
    connected: bool,
    lwsCtx: Option<nat>,        // conn->lws_ctx
    wsi: Option<nat>,           // conn->wsi, as the number of the context it belongs to
    contexts: nat,              // contexts created so far
    armed: bool,                // WRITEABLE requested on the current connection
    cancelPending: bool,        // a cancel of the current context not yet serviced
    service: Service,
    senders: seq<Sender>,
    accepted: seq<string>,      // history: messages enqueued
    written: seq<string>)       // history: payloads given to lws_write

  datatype Action =
    // from outside
    | NewThread
    | Call(i: nat, data: string)
    | CreateContext
    | Establish
    | Close
    | Destroy(notified: bool)   // whether the destruction delivered CLIENT_CLOSED
    | ClearContext
    // the protocol itself
    | Enqueue(i: nat)
    | TestContext(i: nat)
    | ReadContext(i: nat)
    | Cancel(i: nat)
    | ArmOpened
    | TakeWriteable
    | Write
    | TakeCancel
    | ReadPending
    | ArmPending

  function Init(): State {
    State([], false, None, None, 0, false, false, Down, [], [], [])
  }

  /** The connection is usable: its context exists and conn->wsi belongs to it. */
  predicate Live(s: State) {
    s.lwsCtx.Some? && s.wsi == s.lwsCtx && !s.service.Down? && !s.service.Destroyed?
  }

  predicate Protocol(a: Action) {
    !(a.NewThread? || a.Call? || a.CreateContext? || a.Establish? || a.Close? || a.Destroy? || a.ClearContext?)
  }

  predicate Enabled(s: State, a: Action) {
    match a
    case NewThread => true
    case Call(i, data) => i < |s.senders| && s.senders[i].Resting?
    case CreateContext => s.service.Down?
    case Establish => s.service.Polling? && s.lwsCtx.Some? && s.wsi != s.lwsCtx
    case Close => s.service.Polling?
    case Destroy(_) => s.service.Polling?
    case ClearContext => s.service.Destroyed?
    case Enqueue(i) => i < |s.senders| && s.senders[i].Checked?
    case TestContext(i) => i < |s.senders| && s.senders[i].Enqueued?
    case ReadContext(i) => i < |s.senders| && s.senders[i].SawContext?
    case Cancel(i) => i < |s.senders| && s.senders[i].Cancelling?
    case ArmOpened => s.service.Opened?
    case TakeWriteable => s.service.Polling? && s.armed
    case Write => s.service.Writing?
    case TakeCancel => s.service.Polling? && s.cancelPending
    case ReadPending => s.service.CancelSeen?
    case ArmPending => s.service.CancelRead?
  }

  function SetSender(s: State, i: nat, pc: Sender): State
    requires i < |s.senders|
  {
    s.(senders := s.senders[i := pc])
  }

  function Step(s: State, a: Action): State
    requires Enabled(s, a)
  {
    match a
    case NewThread => s.(senders := s.senders + [Resting])
    case Call(i, data) => if data == "" || !s.connected then s else SetSender(s, i, Checked(Clip(data)))
    case CreateContext => s.(lwsCtx := Some(s.contexts), contexts := s.contexts + 1, armed := false, cancelPending := false, service := Polling)
    case Establish => s.(wsi := s.lwsCtx, connected := true, service := Opened)
    case Close => s.(wsi := None, connected := false, armed := false)
    case Destroy(notified) =>
      s.(wsi := if notified then None else s.wsi, connected := if notified then false else s.connected,
         armed := false, cancelPending := false, service := Destroyed)
    case ClearContext => s.(lwsCtx := None, connected := false, service := Down)
    case Enqueue(i) =>
      if |s.queue| >= QUEUE_DEPTH then SetSender(s, i, Resting)
      else
        var d := s.senders[i].data;
        SetSender(s, i, Enqueued).(queue := s.queue + [d], accepted := s.accepted + [d])
    case TestContext(i) => SetSender(s, i, if s.lwsCtx.Some? then SawContext else Resting)
    case ReadContext(i) => SetSender(s, i, if s.lwsCtx.Some? then Cancelling(s.lwsCtx.value) else Resting)
    case Cancel(i) =>
      var hits := s.lwsCtx == Some(s.senders[i].ctx) && !s.service.Destroyed?;
      SetSender(s, i, Resting).(cancelPending := s.cancelPending || hits)
    case ArmOpened => s.(armed := true, service := Polling)
    case TakeWriteable => s.(armed := false, service := Writing)
    case Write =>
      if s.queue == [] then s.(service := Polling)
      else s.(queue := s.queue[1..], written := s.written + [s.queue[0]], armed := s.armed || |s.queue| > 1, service := Polling)
    case TakeCancel => s.(cancelPending := false, service := CancelSeen)
    case ReadPending => s.(service := CancelRead(s.queue != []))
    case ArmPending => s.(armed := s.armed || (s.service.pending && s.wsi.Some? && s.wsi == s.lwsCtx), service := Polling)
  }

  ghost predicate CanRun(s: State, acts: seq<Action>)
    decreases |acts|
  {
    acts == [] || (Enabled(s, acts[0]) && CanRun(Step(s, acts[0]), acts[1..]))
  }

  ghost function After(s: State, acts: seq<Action>): State
    requires CanRun(s, acts)
    decreases |acts|
  {
    if acts == [] then s else After(Step(s, acts[0]), acts[1..])
  }

  // ---- What every interleaving keeps ----

  /** Sender `i` is between its enqueue and the cancel that will reach the current context. */
  ghost predicate Waking(s: State, i: nat) {
    i < |s.senders| && (s.senders[i].Enqueued? || s.senders[i].SawContext?
      || (s.senders[i].Cancelling? && s.lwsCtx == Some(s.senders[i].ctx)))
  }

  /** Something will still request WRITEABLE, or has. */
  ghost predicate WakeComing(s: State) {
    || s.armed
    || s.cancelPending
    || (exists i: nat :: Waking(s, i))
    || s.service.Opened? || s.service.Writing? || s.service.CancelSeen? || s.service == CancelRead(true)
  }

  ghost predicate NoLostWakeUp(s: State) {
    Live(s) && s.queue != [] ==> WakeComing(s)
  }

  ghost predicate Fifo(s: State) {
    && s.accepted == s.written + s.queue
    && |s.queue| <= QUEUE_DEPTH
    && (forall k | 0 <= k < |s.accepted| :: 0 < |s.accepted[k]| <= MAX_MSG_SIZE)
    && SendersOk(s)
  }

  /** The part of Fifo about what the senders are about to enqueue. */
  ghost predicate SendersOk(s: State) {
    forall i | 0 <= i < |s.senders| && s.senders[i].Checked? :: 0 < |s.senders[i].data| <= MAX_MSG_SIZE
  }

  /** The context pointer, the context numbers and the service thread agree. */
  ghost predicate Coherent(s: State) {
    && (s.service.Down? <==> s.lwsCtx.None?)
    && (s.lwsCtx.Some? ==> s.lwsCtx.value < s.contexts)
    && (s.wsi.Some? ==> s.wsi.value < s.contexts)
    && (forall i | 0 <= i < |s.senders| && s.senders[i].Cancelling? :: s.senders[i].ctx < s.contexts)
    && (s.armed ==> Live(s))
    && (s.service.Opened? || s.service.Writing? ==> Live(s))
  }

  ghost predicate Inv(s: State) {
    Fifo(s) && Coherent(s) && NoLostWakeUp(s)
  }

  lemma SendersKept(s: State, a: Action)
    requires SendersOk(s) && Enabled(s, a)
    ensures SendersOk(Step(s, a))
  {
    var s' := Step(s, a);
    forall i | 0 <= i < |s'.senders| && s'.senders[i].Checked? ensures 0 < |s'.senders[i].data| <= MAX_MSG_SIZE {
      if i < |s.senders| && s'.senders[i] == s.senders[i] { assert s.senders[i].Checked?; }
    }
  }

  lemma FifoAfterEnqueue(s: State, i: nat)
    requires Fifo(s) && Enabled(s, Enqueue(i))
    ensures Fifo(Step(s, Enqueue(i)))
  {
    SendersKept(s, Enqueue(i));
    HistoryAfterPush(s.written, s.queue, s.senders[i].data);
  }

  lemma FifoAfterWrite(s: State)
    requires Fifo(s) && Enabled(s, Write)
    ensures Fifo(Step(s, Write))
  {
    if s.queue != [] { HistoryAfterPop(s.written, s.queue); }
  }

  lemma FifoKept(s: State, a: Action)
    requires Fifo(s) && Enabled(s, a)
    ensures Fifo(Step(s, a))
  {
    match a
    case Enqueue(i) => FifoAfterEnqueue(s, i);
    case Write => FifoAfterWrite(s);
    case _ => SendersKept(s, a);
  }

  /** A step of one of the sending threads. */
  predicate BySender(a: Action) {
    a.Call? || a.Enqueue? || a.TestContext? || a.ReadContext? || a.Cancel?
  }

  lemma CoherentKeptBySender(s: State, a: Action)
    requires Coherent(s) && Enabled(s, a) && BySender(a)
    ensures Coherent(Step(s, a))
  {
    var s' := Step(s, a);
    assert s'.service == s.service && s'.lwsCtx == s.lwsCtx && s'.wsi == s.wsi && s'.contexts == s.contexts && s'.armed == s.armed;
    forall i | 0 <= i < |s'.senders| && s'.senders[i].Cancelling? ensures s'.senders[i].ctx < s'.contexts {
      if i != a.i { assert s'.senders[i] == s.senders[i]; }
    }
  }

  lemma CoherentKeptByService(s: State, a: Action)
    requires Coherent(s) && Enabled(s, a) && !BySender(a)
    ensures Coherent(Step(s, a))
  {
    var s' := Step(s, a);
    forall i | 0 <= i < |s'.senders| && s'.senders[i].Cancelling? ensures s'.senders[i].ctx < s'.contexts {
      if i < |s.senders| { assert s'.senders[i] == s.senders[i]; }
    }
  }

  lemma CoherentKept(s: State, a: Action)
    requires Coherent(s) && Enabled(s, a)
    ensures Coherent(Step(s, a))
  {
    if BySender(a) { CoherentKeptBySender(s, a); } else { CoherentKeptByService(s, a); }
  }

  lemma WakeUpKept(s: State, a: Action)
    requires Coherent(s) && NoLostWakeUp(s) && Enabled(s, a)
    ensures NoLostWakeUp(Step(s, a))
  {
    var s' := Step(s, a);
    if Live(s') && s'.queue != [] {
      if a.Enqueue? && s'.queue != s.queue {
        assert Waking(s', a.i);
      } else if Live(s) && s.queue != [] && exists i: nat :: Waking(s, i) {
        var i: nat :| Waking(s, i);
        if !(a.Cancel? && a.i == i) { assert Waking(s', i); }
      }
    }
  }

  lemma StepKeepsInv(s: State, a: Action)
    requires Inv(s) && Enabled(s, a)
    ensures Inv(Step(s, a))
  {
    FifoKept(s, a);
    CoherentKept(s, a);
    WakeUpKept(s, a);
  }

  lemma {:induction false} InvOverRun(s: State, acts: seq<Action>)
    requires Inv(s) && CanRun(s, acts)
    ensures Inv(After(s, acts))
    decreases |acts|
  {
    if acts != [] {
      StepKeepsInv(s, acts[0]);
      InvOverRun(Step(s, acts[0]), acts[1..]);
    }
  }

  /** In every reachable state with a usable connection and a message waiting, a WRITEABLE
      request is made or under way: also for messages left over from an earlier connection. */
  lemma NoWakeUpIsLost(acts: seq<Action>)
    requires CanRun(Init(), acts)
    ensures var s := After(Init(), acts);
      Live(s) && s.queue != [] ==> WakeComing(s)
  {
    InvOverRun(Init(), acts);
  }

  /** Across reconnections, what was given to lws_write is an initial part of what was
      accepted, in order, and at most 32 messages lie in between. */
  lemma WrittenIsPrefixOfAccepted(acts: seq<Action>)
    requires CanRun(Init(), acts)
    ensures var s := After(Init(), acts);
      s.written <= s.accepted && |s.accepted| - |s.written| == |s.queue| <= QUEUE_DEPTH
      && s.queue == s.accepted[|s.written|..]
  {
    InvOverRun(Init(), acts);
  }

  // ---- While the connection stays up, everything accepted gets written ----

  function SenderRank(pc: Sender): nat {
    match pc
    case Resting => 0
    case Checked(_) => 13
    case Enqueued => 9
    case SawContext => 8
    case Cancelling(_) => 7
  }

  function ServiceRank(v: Service): nat {
    match v
    case CancelSeen => 5
    case CancelRead(_) => 4
    case Opened => 3
    case Writing => 1
    case _ => 0
  }

  function Rank(s: State): nat {
    Sum(s.senders, SenderRank) + 3 * |s.queue| + ServiceRank(s.service)
      + (if s.armed then 2 else 0) + (if s.cancelPending then 6 else 0)
  }

  lemma SenderLowersRank(s: State, a: Action)
    requires Enabled(s, a) && Protocol(a) && BySender(a)
    ensures Rank(Step(s, a)) < Rank(s)
  {
    var s' := Step(s, a);
    var pc := s'.senders[a.i];
    assert s'.senders == s.senders[a.i := pc];
    SumUpdate(s.senders, SenderRank, a.i, pc);
    assert s'.service == s.service && s'.armed == s.armed;
  }

  lemma ServiceLowersRank(s: State, a: Action)
    requires Enabled(s, a) && Protocol(a) && !BySender(a)
    ensures Rank(Step(s, a)) < Rank(s)
  {
    assert Step(s, a).senders == s.senders;
  }

  lemma ProtocolLowersRank(s: State, a: Action)
    requires Enabled(s, a) && Protocol(a)
    ensures Rank(Step(s, a)) < Rank(s)
  {
    if BySender(a) { SenderLowersRank(s, a); } else { ServiceLowersRank(s, a); }
  }

  lemma LiveKept(s: State, a: Action)
    requires Live(s) && Enabled(s, a) && Protocol(a)
    ensures Live(Step(s, a))
  {
  }

  lemma StuckMeansEmpty(s: State)
    requires Inv(s) && Live(s) && forall a: Action :: Protocol(a) ==> !Enabled(s, a)
    ensures s.queue == [] && s.written == s.accepted
  {
    forall i: nat ensures !Waking(s, i) {
      assert !Enabled(s, TestContext(i)) && !Enabled(s, ReadContext(i)) && !Enabled(s, Cancel(i));
    }
    assert !Enabled(s, ArmOpened) && !Enabled(s, Write) && !Enabled(s, ReadPending) && !Enabled(s, ArmPending);
    assert !Enabled(s, TakeWriteable) && !Enabled(s, TakeCancel);
    assert s.queue == [];
    assert s.written + [] == s.written;
  }

  ghost predicate AllProtocol(acts: seq<Action>) {
    forall k | 0 <= k < |acts| :: Protocol(acts[k])
  }

  lemma {:induction false} ProtocolRun(s: State, acts: seq<Action>)
    requires Inv(s) && Live(s) && CanRun(s, acts) && AllProtocol(acts)
    ensures |acts| <= Rank(s) && Live(After(s, acts)) && Inv(After(s, acts))
    decreases |acts|
  {
    if acts != [] {
      StepKeepsInv(s, acts[0]);
      LiveKept(s, acts[0]);
      ProtocolLowersRank(s, acts[0]);
      ProtocolRun(Step(s, acts[0]), acts[1..]);
    }
  }

  /** From every reachable state with a usable connection, as long as it stays up and no new
      call arrives, every schedule ends within Rank steps, and where no step is left every
      message accepted since the beginning has been given to lws_write, in order. */
  lemma QueueDrains(before: seq<Action>, acts: seq<Action>)
    requires CanRun(Init(), before) && Live(After(Init(), before))
    requires CanRun(After(Init(), before), acts) && AllProtocol(acts)
    ensures |acts| <= Rank(After(Init(), before))
    ensures var s := After(After(Init(), before), acts);
      (forall a: Action :: Protocol(a) ==> !Enabled(s, a)) ==> s.queue == [] && s.written == s.accepted
  {
    InvOverRun(Init(), before);
    ProtocolRun(After(Init(), before), acts);
    var s := After(After(Init(), before), acts);
    if forall a: Action :: Protocol(a) ==> !Enabled(s, a) {
      StuckMeansEmpty(s);
    }
  }

  // ---- What a call and a WRITEABLE event do ----

  lemma {:induction false} SenderWaits(s: State, acts: seq<Action>, i: nat)
    requires CanRun(s, acts) && i < |s.senders|
    requires forall k | 0 <= k < |acts| && BySender(acts[k]) :: acts[k].i != i
    ensures i < |After(s, acts).senders| && After(s, acts).senders[i] == s.senders[i]
    decreases |acts|
  {
    if acts != [] {
      assert i < |Step(s, acts[0]).senders| && Step(s, acts[0]).senders[i] == s.senders[i];
      SenderWaits(Step(s, acts[0]), acts[1..], i);
    }
  }

  /** One send, whatever the other threads do between its test of `connected` and its mutex
      section: without data or connection it does nothing; otherwise it queues exactly the data,
      cut at 65536 bytes, unless 32 messages are waiting then. */
  lemma SendOutcome(s: State, i: nat, data: string, acts: seq<Action>)
    requires Enabled(s, Call(i, data)) && CanRun(Step(s, Call(i, data)), acts)
    requires forall k | 0 <= k < |acts| && BySender(acts[k]) :: acts[k].i != i
    ensures data == "" || !s.connected ==> Step(s, Call(i, data)) == s
    ensures data != "" && s.connected ==>
      var s' := After(Step(s, Call(i, data)), acts);
      && Enabled(s', Enqueue(i))
      && var m, s'' := if |data| <= 65536 then data else data[..65536], Step(s', Enqueue(i));
        && s''.queue == (if |s'.queue| < 32 then s'.queue + [m] else s'.queue)
        && s''.accepted == (if |s'.queue| < 32 then s'.accepted + [m] else s'.accepted)
  {
    SenderWaits(Step(s, Call(i, data)), acts, i);
  }

  /** Whether the agent counts as connected, as the events alone decide it. */
  function ConnectedAfter(connected: bool, acts: seq<Action>): bool
    decreases |acts|
  {
    if acts == [] then connected
    else
      ConnectedAfter(match acts[0]
                     case Establish => true
                     case Close => false
                     case Destroy(notified) => connected && !notified
                     case ClearContext => false
                     case _ => connected,
                     acts[1..])
  }

  /** Sends are accepted between an ESTABLISHED and the next CLOSED, or the next end of the
      context, and at no other time. */
  lemma {:induction false} ConnectedIs(s: State, acts: seq<Action>)
    requires CanRun(s, acts)
    ensures After(s, acts).connected == ConnectedAfter(s.connected, acts)
    decreases |acts|
  {
    if acts != [] { ConnectedIs(Step(s, acts[0]), acts[1..]); }
  }

  /** A serviced cancel requests WRITEABLE if and only if a message was waiting when it looked and
      the connection is the one of this context. */
  lemma CancelRequestsWriteable(s: State)
    requires Enabled(s, ReadPending)
    ensures Enabled(Step(s, ReadPending), ArmPending)
    ensures Step(Step(s, ReadPending), ArmPending).armed <==> s.armed || (|s.queue| > 0 && s.wsi.Some? && s.wsi == s.lwsCtx)
  {
  }

  /** A WRITEABLE event hands over the oldest message, and only that one. */
  lemma WriteHandsOverOne(s: State)
    requires Inv(s) && Enabled(s, Write)
    ensures var s' := Step(s, Write);
      if s.queue == [] then s'.written == s.written && s'.queue == []
      else s'.written == s.written + [s.queue[0]] && [s.queue[0]] + s'.queue == s.queue && (|s'.queue| > 0 ==> s'.armed)
  {
  }
}

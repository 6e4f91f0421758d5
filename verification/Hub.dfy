/** The registry of agent connections.  Each call is one section of the hub's lock, so an
    interleaving is a sequence of calls.  A client is a handle; closing its send channel
    twice would panic, so closings are counted. */
module Hub {
  import opened Basics

  /** `agents[c]` is the agent of client c, `closes[c]` how often its channel was closed. */
  datatype State = State(
    clients: map<string, nat>,
    agents: seq<string>,
    closes: seq<nat>,
    registered: set<nat>)

  datatype Action =
    | Connect(agent: string)      // a new client object, not registered yet
    | Register(c: nat)
    | Unregister(c: nat)
    | Disconnect(agent: string)

  function Init(): State {
    State(map[], [], [], {})
  }

  /** Each client object is registered once. */
  predicate Enabled(s: State, a: Action) {
    |s.closes| == |s.agents| &&
    match a
    case Connect(_) => true
    case Register(c) => c < |s.agents| && c !in s.registered
    case Unregister(c) => c < |s.agents|
    case Disconnect(_) => true
  }

  /** close(client.send) and delete(h.clients, id). */
  function Drop(s: State, id: string): State {
    if id in s.clients && s.clients[id] < |s.closes| then
      var c := s.clients[id];
      s.(clients := s.clients - {id}, closes := s.closes[c := s.closes[c] + 1])
    else s
  }

  function Step(s: State, a: Action): State
    requires Enabled(s, a)
  {
    match a
    case Connect(agent) => s.(agents := s.agents + [agent], closes := s.closes + [0])
    case Register(c) =>
      var d := Drop(s, s.agents[c]);
      d.(clients := d.clients[s.agents[c] := c], registered := s.registered + {c})
    case Unregister(c) =>
      if s.agents[c] in s.clients && s.clients[s.agents[c]] == c then Drop(s, s.agents[c]) else s
    case Disconnect(agent) => Drop(s, agent)
  }

  ghost predicate CanRun(s: State, acts: seq<Action>)
    decreases |acts|
  {
    acts == [] || (Enabled(s, acts[0]) && CanRun(Step(s, acts[0]), acts[1..]))
  }

  ghost function After(s: State, acts: seq<Action>): State
    requires CanRun(s, acts)
    decreases |acts|
  {
    if acts == [] then s else After(Step(s, acts[0]), acts[1..])
  }

  predicate Current(s: State, c: nat)
    requires c < |s.agents|
  {
    s.agents[c] in s.clients && s.clients[s.agents[c]] == c
  }

  /** The channel of a client is closed exactly when it has been registered and is not the
      current client of its agent any more, and then it has been closed exactly once. */
  ghost predicate Inv(s: State) {
    && |s.closes| == |s.agents|
    && (forall c <- s.registered :: c < |s.agents|)
    && (forall id <- s.clients :: s.clients[id] < |s.agents| && s.agents[s.clients[id]] == id && s.clients[id] in s.registered)
    && (forall c | 0 <= c < |s.agents| :: s.closes[c] == if c in s.registered && !Current(s, c) then 1 else 0)
  }

  lemma StepKeepsInv(s: State, a: Action)
    requires Inv(s) && Enabled(s, a)
    ensures Inv(Step(s, a))
  {
    var s' := Step(s, a);
    forall c | 0 <= c < |s'.agents| ensures s'.closes[c] == if c in s'.registered && !Current(s', c) then 1 else 0 {
      if c < |s.agents| { assert s.closes[c] == if c in s.registered && !Current(s, c) then 1 else 0; }
    }
  }

  lemma {:induction false} InvOverRun(s: State, acts: seq<Action>)
    requires Inv(s) && CanRun(s, acts)
    ensures Inv(After(s, acts))
    decreases |acts|
  {
    if acts != [] {
      StepKeepsInv(s, acts[0]);
      InvOverRun(Step(s, acts[0]), acts[1..]);
    }
  }

  /** In every sequence of calls no channel is closed twice, a client in the map has an open
      channel, and a registered client that left the map has a closed one. */
  lemma ChannelsClosedOnce(acts: seq<Action>, c: nat)
    requires CanRun(Init(), acts) && c < |After(Init(), acts).agents|
    ensures var s := After(Init(), acts);
      && |s.closes| == |s.agents| && s.closes[c] <= 1
      && (s.closes[c] == 1 <==> c in s.registered && !Current(s, c))
  {
    InvOverRun(Init(), acts);
  }

  /** The Unregister of a client that Register already replaced, or that Disconnect removed,
      changes nothing: neither the new client's entry nor any channel. */
  lemma LateUnregisterIsHarmless(acts: seq<Action>, c: nat)
    requires CanRun(Init(), acts) && c < |After(Init(), acts).closes| && After(Init(), acts).closes[c] == 1
    ensures Enabled(After(Init(), acts), Unregister(c)) && Step(After(Init(), acts), Unregister(c)) == After(Init(), acts)
  {
    InvOverRun(Init(), acts);
    assert !Current(After(Init(), acts), c);
  }

  // ---- Which client is current ----

  function ClientOf(s: State, agent: string): Option<nat> {
    if agent in s.clients then Some(s.clients[agent]) else None
  }

  /** The client of an agent after one more call: the one just registered for it, none after it
      was unregistered or the agent disconnected, and otherwise the same as before. */
  function NextClient(s: State, a: Action, agent: string, current: Option<nat>): Option<nat> {
    match a
    case Connect(_) => current
    case Register(c) => if c < |s.agents| && s.agents[c] == agent then Some(c) else current
    case Unregister(c) => if current == Some(c) then None else current
    case Disconnect(other) => if other == agent then None else current
  }

  ghost function LastClient(s: State, acts: seq<Action>, agent: string, current: Option<nat>): Option<nat>
    requires CanRun(s, acts)
    decreases |acts|
  {
    if acts == [] then current
    else LastClient(Step(s, acts[0]), acts[1..], agent, NextClient(s, acts[0], agent, current))
  }

  lemma ClientAfterStep(s: State, a: Action, agent: string)
    requires Inv(s) && Enabled(s, a)
    ensures ClientOf(Step(s, a), agent) == NextClient(s, a, agent, ClientOf(s, agent))
  {
  }

  /** After every sequence of calls the map holds, for every agent, the last client registered
      that was not unregistered and whose agent was not disconnected since. */
  lemma {:induction false} ClientIsLast(s: State, acts: seq<Action>, agent: string)
    requires Inv(s) && CanRun(s, acts)
    ensures ClientOf(After(s, acts), agent) == LastClient(s, acts, agent, ClientOf(s, agent))
    decreases |acts|
  {
    if acts != [] {
      StepKeepsInv(s, acts[0]);
      ClientAfterStep(s, acts[0], agent);
      ClientIsLast(Step(s, acts[0]), acts[1..], agent);
    }
  }

  class Hub {
    var clients: map<string, nat>
    var agents: seq<string>
    var closes: seq<nat>
    var registered: set<nat>

    function View(): State
      reads this
    {
      State(clients, agents, closes, registered)
    }

    constructor ()
      ensures View() == Init()
    {
      clients, agents, closes, registered := map[], [], [], {};
    }

    /** close of a channel that is still open. */
    method Close(c: nat)
      requires c < |closes| && closes[c] == 0
      modifies this`closes
      ensures closes == old(closes)[c := 1]
    {
      closes := closes[c := closes[c] + 1];
    }

    method Register(c: nat)
      requires Inv(View()) && Enabled(View(), Action.Register(c))
      modifies this
      ensures View() == Step(old(View()), Action.Register(c)) && Inv(View())
    {
      StepKeepsInv(View(), Action.Register(c));
      var id := agents[c];
      if id in clients {
        assert Current(View(), clients[id]);
        Close(clients[id]);
        clients := clients - {id};
      }
      clients := clients[id := c];
      registered := registered + {c};
    }

    method Unregister(c: nat) returns (wasCurrent: bool)
      requires Inv(View()) && Enabled(View(), Action.Unregister(c))
      modifies this
      ensures View() == Step(old(View()), Action.Unregister(c)) && Inv(View())
      ensures wasCurrent <==> old(Current(View(), c))
    {
      StepKeepsInv(View(), Action.Unregister(c));
      var id := agents[c];
      wasCurrent := id in clients && clients[id] == c;
      if wasCurrent {
        Close(c);
        clients := clients - {id};
      }
    }

    method Disconnect(id: string) returns (ok: bool)
      requires Inv(View())
      modifies this
      ensures View() == Step(old(View()), Action.Disconnect(id)) && Inv(View())
      ensures ok <==> id in old(clients)
    {
      StepKeepsInv(View(), Action.Disconnect(id));
      ok := id in clients;
      if ok {
        assert Current(View(), clients[id]);
        Close(clients[id]);
        clients := clients - {id};
      }
    }
  }
}

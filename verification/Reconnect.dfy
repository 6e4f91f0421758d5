/** The waits between connection attempts. */
module Reconnect {
  const INIT_MS: nat := 5000
  const STEP_MS: nat := 5000
  const MAX_MS: nat := 60000
  const TICK_MS: nat := 100

  function Min(a: nat, b: nat): nat {
    if a < b then a else b
  }

  datatype Event = Established | Waited

  class Backoff {
    var reconnectDelayMs: nat
    /** History: connections established and waits begun, in order. */
    ghost var events: seq<Event>

    ghost predicate Valid()
      reads this
    {
      reconnectDelayMs == Delay(WaitsSinceEstablished(events))
    }

    constructor ()
      ensures Valid() && events == []
    {
      reconnectDelayMs := INIT_MS;
      events := [];
    }

    method OnEstablished()
      requires Valid()
      modifies this
      ensures Valid() && events == old(events) + [Established]
    {
      reconnectDelayMs := INIT_MS;
      events := events + [Established];
    }

    /** The sleep loop and the increase after it; `stopAfter` is the number of ticks after
        which should_stop turns true. */
    method Wait(stopAfter: nat) returns (elapsed: nat)
      requires Valid()
      modifies this
      ensures Valid() && events == old(events) + [Waited]
      ensures elapsed == Min(old(reconnectDelayMs), stopAfter * TICK_MS)
      ensures elapsed == Min(Delay(WaitsSinceEstablished(old(events))), stopAfter * TICK_MS)
    {
      DelayIsWholeTicks(WaitsSinceEstablished(events));
      elapsed := 0;
      var ticks := 0;
      while ticks != stopAfter && elapsed < reconnectDelayMs
        invariant elapsed == ticks * TICK_MS && ticks <= stopAfter && elapsed <= reconnectDelayMs
        invariant reconnectDelayMs == old(reconnectDelayMs) && events == old(events)
        decreases stopAfter - ticks
      {
        elapsed := elapsed + TICK_MS;
        ticks := ticks + 1;
      }
      reconnectDelayMs := reconnectDelayMs + STEP_MS;
      if reconnectDelayMs > MAX_MS {
        reconnectDelayMs := MAX_MS;
      }
      events := events + [Waited];
      DelayNext(WaitsSinceEstablished(old(events)));
    }
  }

  /** How many waits have followed the last established connection. */
  function WaitsSinceEstablished(events: seq<Event>): nat {
    if events == [] || events[|events| - 1].Established? then 0
    else 1 + WaitsSinceEstablished(events[..|events| - 1])
  }

  /** The wait announced by the backoff: linear, then flat. */
  function Delay(k: nat): nat {
    Min(INIT_MS + STEP_MS * k, MAX_MS)
  }

  lemma DelayNext(k: nat)
    ensures Delay(k + 1) == Min(Delay(k) + STEP_MS, MAX_MS)
    ensures Delay(k) == if k < 11 then 5000 + 5000 * k else 60000
  {
  }

  lemma DelayIsWholeTicks(k: nat)
    ensures exists t: nat :: Delay(k) == t * TICK_MS
  {
    assert Delay(k) == Min(50 + 50 * k, 600) * TICK_MS;
  }
}

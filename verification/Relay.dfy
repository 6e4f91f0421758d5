/** The relay object itself: the methods that run under `Relay.mu`, over its two maps and
    the live sessions.  `objs` stands for the heap of `*liveSession`; a handle is its index. */
module Relay {
  import opened Basics
  import opened RelayModel

  class Relay {
    var sessions: map<string, nat>
    var endedSessions: set<string>
    var objs: seq<LiveSession>

    function View(): Registry
      reads this
    {
      Registry(sessions, endedSessions, objs)
    }

    ghost predicate Valid()
      reads this
    {
      forall i <- sessions :: sessions[i] < |objs|
    }

    constructor ()
      ensures Valid() && View() == Init().reg
    {
      sessions, endedSessions, objs := map[], {}, [];
    }

    method Register(id: string, agentId: string, mode: string) returns (ok: bool)
      requires Valid()
      modifies this
      ensures Valid()
      ensures ok <==> id !in old(sessions)
      ensures View() == if ok then LookupOrCreate(old(View()), id, agentId, mode).0 else old(View())
    {
      if id in sessions {
        return false;
      }
      objs := objs + [Fresh(id, agentId, mode)];
      sessions := sessions[id := |objs| - 1];
      ok := true;
    }

    /** The locked part of attach; `next` is what the caller does after unlocking. */
    method Attach(id: string, agentId: string, mode: string, isAgent: bool, conn: nat) returns (next: Thread)
      requires Valid()
      modifies this
      ensures Valid()
      ensures (View(), next) == AttachSection(old(View()), id, agentId, mode, isAgent, conn)
    {
      if id in endedSessions {
        return Rejecting(conn);
      }
      var known := id in sessions;
      if !known {
        objs := objs + [Fresh(id, agentId, mode)];
        sessions := sessions[id := |objs| - 1];
      }
      var h := sessions[id];
      if objs[h].ended {
        return Rejecting(conn);
      }
      var duplicate;
      if isAgent {
        duplicate := objs[h].agentConn.Some?;
        if !duplicate {
          objs := objs[h := objs[h].(agentConn := Some(conn))];
        }
      } else {
        duplicate := objs[h].viewerConn.Some?;
        if !duplicate {
          objs := objs[h := objs[h].(viewerConn := Some(conn))];
        }
      }
      var ready := objs[h].agentConn.Some? && objs[h].viewerConn.Some?;
      if duplicate {
        next := Rejecting(conn);
      } else if ready {
        next := StartingPump(h);
      } else if !known {
        next := StartingTimer(h);
      } else {
        next := Finished;
      }
    }

    method PairTimeoutCheck(h: nat) returns (stillWaiting: bool)
      requires Valid() && h < |objs|
      ensures stillWaiting == StillWaiting(View(), h)
    {
      var ls := objs[h];
      stillWaiting := ls.sessionId in sessions && sessions[ls.sessionId] == h
                      && !(ls.agentConn.Some? && ls.viewerConn.Some?);
    }

    method End(h: nat)
      requires Valid() && h < |objs|
      modifies this
      ensures Valid() && View() == EndSection(old(View()), h)
    {
      var ls := objs[h];
      if ls.sessionId in sessions && sessions[ls.sessionId] == h {
        sessions := sessions - {ls.sessionId};
      }
      objs := objs[h := ls.(ended := true)];
      endedSessions := endedSessions + {ls.sessionId};
    }

    method ForgetEnded(id: string)
      requires Valid()
      modifies this`endedSessions
      ensures Valid() && View() == old(View()).(endedSessions := old(endedSessions) - {id})
    {
      endedSessions := endedSessions - {id};
    }

    /** The sessions that EndSessionsForAgent goes on to end. */
    method SessionsOf(agentId: string) returns (toEnd: seq<nat>)
      requires Valid()
      ensures ListsSessionsOf(View(), agentId, toEnd)
    {
      toEnd := [];
      var rest := sessions.Keys;
      while rest != {}
        invariant rest <= sessions.Keys
        invariant forall i | i in sessions && i !in rest && objs[sessions[i]].agentId == agentId :: sessions[i] in toEnd
        invariant forall h <- toEnd :: exists i <- sessions :: sessions[i] == h && objs[h].agentId == agentId
        decreases |rest|
      {
        var i :| i in rest;
        if objs[sessions[i]].agentId == agentId {
          toEnd := toEnd + [sessions[i]];
        }
        rest := rest - {i};
      }
    }
  }
}

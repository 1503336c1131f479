/**
 The `session/cancel` and `session/close` handlers (src/acp.rs): both stamp
 activity and strike the session's prompts; a close also forgets the session.
 A session's recorded state is its working directory here.
 */
module AcpHandlers {
  import opened CancelRegistry
  import opened IdleExit

  class Sessions {
    var entries: map<SessionId, string>

    constructor ()
      ensures entries == map[]
    {
      entries := map[];
    }
  }

  method HandleCancelNotification(inFlight: InFlight, idle: IdleState, s: SessionId, now: nat)
    returns (reached: nat)
    modifies inFlight, idle
    ensures inFlight.View() == Abort(old(inFlight.View()), s)
    ensures reached == NewlyReached(EntriesOf(old(inFlight.View()), s))
    ensures idle.View() == old(idle.View()).(lastActivity := now)
  {
    idle.RecordActivity(now);
    reached := inFlight.AbortSessionPrompts(s);
  }

  method HandleCloseSessionRequest(inFlight: InFlight, sessions: Sessions, idle: IdleState, s: SessionId, now: nat)
    returns (existed: bool)
    modifies inFlight, sessions, idle
    ensures inFlight.View() == Abort(old(inFlight.View()), s)
    ensures existed == (s in old(sessions.entries))
    ensures sessions.entries == old(sessions.entries) - {s}
    ensures idle.View() == old(idle.View()).(lastActivity := now)
  {
    idle.RecordActivity(now);
    var _ := inFlight.AbortSessionPrompts(s);
    existed := s in sessions.entries;
    sessions.entries := sessions.entries - {s};
  }
}

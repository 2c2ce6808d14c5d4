// BrowserAcpClient itself: the fields the source updates, proved against the steps of AcpConnection.
module BrowserAcpClient {
  import opened Wrappers
  import opened AcpConnection

  class AcpClient {
    var sessionId: Option<string>
    var lastEventId: Option<string>
    var sseAttempt: nat
    var reconnectTimer: Option<nat>
    var eventSource: Option<Source>
    var ownershipConflictRetryState: map<string, nat>
    // The page around the client: outstanding probes, open event sources, reported issues.
    ghost var probes: map<nat, Probe>
    ghost var live: set<nat>
    ghost var issues: seq<Issue>

    ghost function View(): Client
      reads this
    {
      Client(sessionId, lastEventId, sseAttempt, reconnectTimer, eventSource, ownershipConflictRetryState,
             probes, live, issues)
    }

    constructor ()
      ensures View() == Fresh && Inv(View())
    {
      sessionId, lastEventId, sseAttempt := None, None, 0;
      reconnectTimer, eventSource, ownershipConflictRetryState := None, None, map[];
      probes, live, issues := map[], {}, [];
    }

    method ConnectSource(id: string) returns (attempt: nat)
      modifies this
      ensures View() == ConnectSSE(old(View()), id) && attempt == sseAttempt
    {
      sseAttempt := sseAttempt + 1;
      attempt := sseAttempt;
      if reconnectTimer.Some? {
        reconnectTimer := None;
      }
      if eventSource.Some? {
        live := live - {eventSource.value.attempt};
        eventSource := None;
      }
      probes := probes[attempt := Probe(id, lastEventId, InFlight)];
    }

    method AttachSession(id: string)
      modifies this
      ensures View() == Step(old(View()), Attach(id))
      ensures old(Inv(View())) ==> Inv(View())
    {
      if Inv(View()) {
        StepKeepsInv(View(), Attach(id));
      }
      if sessionId != Some(id) {
        if Truthy(sessionId) {
          ownershipConflictRetryState := ownershipConflictRetryState - {sessionId.value};
        }
        lastEventId := None;
      }
      sessionId := Some(id);
      var _ := ConnectSource(id);
    }

    // The end of newSession and loadSession, once the server has answered: the session id is
    // already the new one when attachSession compares it.
    method SessionReady(id: string)
      requires Inv(View())
      modifies this
      ensures View() == Step(old(View()), Created(id)) && Inv(View())
    {
      StepKeepsInv(View(), Created(id));
      sessionId := Some(id);
      AttachSession(id);
    }

    method DisconnectClient()
      requires Inv(View())
      modifies this
      ensures View() == Step(old(View()), Disconnect) && Inv(View())
    {
      StepKeepsInv(View(), Disconnect);
      if reconnectTimer.Some? {
        reconnectTimer := None;
      }
      if eventSource.Some? {
        live := live - {eventSource.value.attempt};
        eventSource := None;
      }
      sessionId := None;
      lastEventId := None;
      ownershipConflictRetryState := map[];
    }

    method ScheduleReconnectIn(delayMs: nat)
      modifies this`reconnectTimer
      ensures View() == ScheduleReconnect(old(View()), delayMs)
    {
      if reconnectTimer.Some? { return; }
      reconnectTimer := Some(delayMs);
    }

    method OwnershipConflictRetryDelayMs(id: string) returns (delay: Option<nat>)
      modifies this`ownershipConflictRetryState
      ensures var (retry, issue) := Refusal(old(ownershipConflictRetryState), id, CONFLICT);
              ownershipConflictRetryState == retry && delay == issue.retryDelayMs && (delay.Some? <==> issue.retryable)
    {
      var attempts := (if id in ownershipConflictRetryState then ownershipConflictRetryState[id] else 0) + 1;
      if attempts > RETRY_LIMIT {
        ownershipConflictRetryState := ownershipConflictRetryState - {id};
        return None;
      }
      ownershipConflictRetryState := ownershipConflictRetryState[id := attempts];
      var backoff := BASE_DELAY_MS * Pow(BACKOFF_MULTIPLIER, attempts - 1);
      delay := Some(if backoff <= MAX_DELAY_MS then backoff else MAX_DELAY_MS);
    }

    // probeSse for session id, from the answer to its fetch to the issue it returns.
    method ProbeSettled(attempt: nat, id: string, outcome: Outcome) returns (issue: Option<Issue>)
      requires Inv(View()) && attempt in probes && probes[attempt].progress.InFlight? && probes[attempt].session == id
      modifies this
      ensures View() == Step(old(View()), Settle(attempt, outcome)) && Inv(View())
      ensures attempt in probes && probes[attempt].progress == Settled(issue)
    {
      StepKeepsInv(View(), Settle(attempt, outcome));
      ghost var p := probes[attempt];
      issue := None;
      if outcome.Refused? {
        var delay: Option<nat> := None;
        if outcome.status == CONFLICT {
          delay := OwnershipConflictRetryDelayMs(id);
        }
        issue := Some(Issue(id, outcome.status, outcome.status != CONFLICT || delay.Some?, delay));
      } else {
        ownershipConflictRetryState := ownershipConflictRetryState - {id};
      }
      probes := probes[attempt := p.(progress := Settled(issue))];
    }

    // The continuation of connectSSE, with the attempt, session and resume id it captured.
    method ProbeDelivered(attempt: nat, id: string, resume: Option<string>, issue: Option<Issue>)
      requires Inv(View()) && attempt in probes && probes[attempt] == Probe(id, resume, Settled(issue))
      modifies this
      ensures View() == Step(old(View()), Deliver(attempt)) && Inv(View())
    {
      StepKeepsInv(View(), Deliver(attempt));
      probes := probes - {attempt};
      if attempt != sseAttempt || sessionId != Some(id) { return; }
      if issue.Some? {
        issues := issues + [issue.value];
        if issue.value.retryable {
          ScheduleReconnectIn(
            if issue.value.retryDelayMs.Some? then issue.value.retryDelayMs.value else RECONNECT_DELAY_MS);
        }
        return;
      }
      eventSource := Some(Source(attempt, id, resume, false));
      live := live + {attempt};
    }

    method ReconnectTimerFired()
      requires Inv(View()) && reconnectTimer.Some?
      modifies this
      ensures View() == Step(old(View()), TimerFired) && Inv(View())
    {
      StepKeepsInv(View(), TimerFired);
      reconnectTimer := None;
      if Truthy(sessionId) {
        var _ := ConnectSource(sessionId.value);
      }
    }

    // The browser gives up on the open event source and its error handler runs.
    method SourceClosed(attempt: nat)
      requires Inv(View()) && attempt in live
      modifies this
      ensures View() == Step(old(View()), SourceFailed(attempt)) && Inv(View())
    {
      StepKeepsInv(View(), SourceFailed(attempt));
      live := live - {attempt};
      if eventSource.Some? && eventSource.value.attempt == attempt {
        eventSource := Some(eventSource.value.(closed := true));
      }
      if eventSource.Some? && eventSource.value.closed {
        ScheduleReconnectIn(RECONNECT_DELAY_MS);
      }
    }

    method MessageReceived(attempt: nat, eventId: string)
      requires Inv(View()) && attempt in live
      modifies this
      ensures View() == Step(old(View()), SourceMessage(attempt, eventId)) && Inv(View())
    {
      StepKeepsInv(View(), SourceMessage(attempt, eventId));
      if eventId != "" {
        lastEventId := Some(eventId);
      }
    }
  }
}

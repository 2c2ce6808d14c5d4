// The connection state of BrowserAcpClient as a value, its atomic steps, and what holds in every
// reachable state. Probes, live event sources and the timer of the page are part of the state;
// their events may arrive in any order. Handlers are assumed not to call back into the client.
module AcpConnection {
  import opened Wrappers

  const CONFLICT: nat := 409
  const RETRY_LIMIT: nat := 4
  const BASE_DELAY_MS: nat := 1200
  const BACKOFF_MULTIPLIER: nat := 2
  const MAX_DELAY_MS: nat := 10000
  const RECONNECT_DELAY_MS: nat := 2000

  datatype Issue = Issue(sessionId: string, status: nat, retryable: bool, retryDelayMs: Option<nat>)

  // How the fetch of a probe ends: an ok response, a thrown error, or any other status.
  datatype Outcome = Accepted | Unreachable | Refused(status: nat)

  datatype Progress = InFlight | Settled(issue: Option<Issue>)
  datatype Probe = Probe(session: string, resume: Option<string>, progress: Progress)
  datatype Source = Source(attempt: nat, session: string, resume: Option<string>, closed: bool)

  datatype Client = Client(
    sessionId: Option<string>,
    lastEventId: Option<string>,
    sseAttempt: nat,
    timer: Option<nat>,
    source: Option<Source>,
    retry: map<string, nat>,
    probes: map<nat, Probe>,
    live: set<nat>,
    issues: seq<Issue>)

  datatype Event =
    | Attach(sessionId: string)
    | Created(sessionId: string)
    | Disconnect
    | Settle(attempt: nat, outcome: Outcome)
    | Deliver(attempt: nat)
    | TimerFired
    | SourceFailed(attempt: nat)
    | SourceMessage(attempt: nat, eventId: string)

  const Fresh := Client(None, None, 0, None, None, map[], map[], {}, [])

  // A session id counts as present when it is neither null nor empty.
  predicate Truthy(id: Option<string>) {
    id.Some? && id.value != ""
  }

  function Pow(b: nat, e: nat): nat {
    if e == 0 then 1 else b * Pow(b, e - 1)
  }

  function Backoff(attempts: nat): nat
    requires attempts >= 1
  {
    var backoff := BASE_DELAY_MS * Pow(BACKOFF_MULTIPLIER, attempts - 1);
    if backoff <= MAX_DELAY_MS then backoff else MAX_DELAY_MS
  }

  function Retries(c: Client, s: string): nat {
    if s in c.retry then c.retry[s] else 0
  }

  function CloseSource(c: Client): Client {
    if c.source.Some? then c.(source := None, live := c.live - {c.source.value.attempt}) else c
  }

  function ConnectSSE(c: Client, s: string): Client {
    var a := c.sseAttempt + 1;
    CloseSource(c).(sseAttempt := a, timer := None, probes := c.probes[a := Probe(s, c.lastEventId, InFlight)])
  }

  function AttachTo(c: Client, s: string): Client {
    var d :=
      if c.sessionId == Some(s) then c
      else c.(retry := if Truthy(c.sessionId) then c.retry - {c.sessionId.value} else c.retry, lastEventId := None);
    ConnectSSE(d.(sessionId := Some(s)), s)
  }

  function ScheduleReconnect(c: Client, delayMs: nat): Client {
    if c.timer.Some? then c else c.(timer := Some(delayMs))
  }

  // The issue of a refused probe, and the retry table after it.
  function Refusal(retry: map<string, nat>, s: string, status: nat): (map<string, nat>, Issue) {
    if status != CONFLICT then (retry, Issue(s, status, true, None))
    else
      var attempts := (if s in retry then retry[s] else 0) + 1;
      if attempts > RETRY_LIMIT then (retry - {s}, Issue(s, status, false, None))
      else (retry[s := attempts], Issue(s, status, true, Some(Backoff(attempts))))
  }

  function SettleProbe(c: Client, a: nat, outcome: Outcome): Client {
    if a !in c.probes || !c.probes[a].progress.InFlight? then c
    else
      var p := c.probes[a];
      match outcome
      case Refused(status) =>
        var (retry, issue) := Refusal(c.retry, p.session, status);
        c.(retry := retry, probes := c.probes[a := p.(progress := Settled(Some(issue)))])
      case _ =>
        c.(retry := c.retry - {p.session}, probes := c.probes[a := p.(progress := Settled(None))])
  }

  function DeliverProbe(c: Client, a: nat): Client {
    if a !in c.probes || !c.probes[a].progress.Settled? then c
    else
      var p := c.probes[a];
      var d := c.(probes := c.probes - {a});
      if a != c.sseAttempt || c.sessionId != Some(p.session) then d
      else match p.progress.issue
        case Some(issue) =>
          var e := d.(issues := d.issues + [issue]);
          if issue.retryable then
            ScheduleReconnect(e, if issue.retryDelayMs.Some? then issue.retryDelayMs.value else RECONNECT_DELAY_MS)
          else e
        case None =>
          d.(source := Some(Source(a, p.session, p.resume, false)), live := d.live + {a})
  }

  function FireTimer(c: Client): Client {
    if c.timer.None? then c
    else
      var d := c.(timer := None);
      if Truthy(c.sessionId) then ConnectSSE(d, c.sessionId.value) else d
  }

  // A live source is closed by the browser and its error handler runs.
  function FailSource(c: Client, a: nat): Client {
    if a !in c.live then c
    else
      var d := c.(live := c.live - {a},
                  source := if c.source.Some? && c.source.value.attempt == a
                            then Some(c.source.value.(closed := true)) else c.source);
      if d.source.Some? && d.source.value.closed then ScheduleReconnect(d, RECONNECT_DELAY_MS) else d
  }

  function Receive(c: Client, a: nat, eventId: string): Client {
    if a in c.live && eventId != "" then c.(lastEventId := Some(eventId)) else c
  }

  function DisconnectAll(c: Client): Client {
    CloseSource(c).(timer := None, sessionId := None, lastEventId := None, retry := map[])
  }

  function Step(c: Client, e: Event): Client {
    match e
    case Attach(s) => AttachTo(c, s)
    case Created(s) => AttachTo(c.(sessionId := Some(s)), s)
    case Disconnect => DisconnectAll(c)
    case Settle(a, outcome) => SettleProbe(c, a, outcome)
    case Deliver(a) => DeliverProbe(c, a)
    case TimerFired => FireTimer(c)
    case SourceFailed(a) => FailSource(c, a)
    case SourceMessage(a, id) => Receive(c, a, id)
  }

  function Run(c: Client, events: seq<Event>): Client
    decreases |events|
  {
    if events == [] then c else Run(Step(c, events[0]), events[1..])
  }

  // ---- Safety ----

  ghost predicate ProbesOk(c: Client) {
    && (forall a :: a in c.probes ==> a <= c.sseAttempt)
    && forall a {:trigger c.probes[a]} :: a in c.probes && c.probes[a].progress.Settled? && c.probes[a].progress.issue.Some? ==>
         var i := c.probes[a].progress.issue.value;
         i.sessionId == c.probes[a].session && (!i.retryable ==> i.status == CONFLICT)
  }

  // The newest probe is what the attached session is waiting for, and it resumes where events stopped.
  ghost predicate NewestOk(c: Client) {
    c.sseAttempt in c.probes && c.sessionId.Some? ==>
      && c.probes[c.sseAttempt].session == c.sessionId.value
      && c.probes[c.sseAttempt].resume == c.lastEventId
      && c.source.None? && c.timer.None?
  }

  ghost predicate SourceOk(c: Client) {
    && c.live == (if c.source.Some? && !c.source.value.closed then {c.source.value.attempt} else {})
    && (c.source.Some? ==>
          && c.sessionId == Some(c.source.value.session)
          && c.source.value.attempt == c.sseAttempt && c.sseAttempt !in c.probes
          && (c.source.value.closed ==> c.timer.Some? || !Truthy(c.sessionId)))
    && (c.timer.Some? ==>
          && c.sessionId.Some? && c.sseAttempt !in c.probes
          && (c.source.Some? ==> c.source.value.closed))
  }

  ghost predicate Inv(c: Client) {
    && ProbesOk(c) && NewestOk(c) && SourceOk(c)
    && forall s :: s in c.retry ==> 1 <= c.retry[s] <= RETRY_LIMIT
  }

  lemma ConnectKeepsInv(c: Client, s: string)
    requires ProbesOk(c) && c.live <= (if c.source.Some? then {c.source.value.attempt} else {})
    requires c.sessionId == Some(s)
    requires forall t :: t in c.retry ==> 1 <= c.retry[t] <= RETRY_LIMIT
    ensures Inv(ConnectSSE(c, s))
  {
    assert c.sseAttempt + 1 !in c.probes;
  }

  lemma SettleKeepsInv(c: Client, a: nat, outcome: Outcome)
    requires Inv(c)
    ensures Inv(SettleProbe(c, a, outcome))
  {
  }

  lemma DeliverKeepsInv(c: Client, a: nat)
    requires Inv(c)
    ensures Inv(DeliverProbe(c, a))
  {
  }

  lemma FailKeepsInv(c: Client, a: nat)
    requires Inv(c)
    ensures Inv(FailSource(c, a))
  {
  }

  lemma StepKeepsInv(c: Client, e: Event)
    requires Inv(c)
    ensures Inv(Step(c, e))
  {
    match e
    case Attach(s) =>
      var d := if c.sessionId == Some(s) then c
        else c.(retry := if Truthy(c.sessionId) then c.retry - {c.sessionId.value} else c.retry, lastEventId := None);
      ConnectKeepsInv(d.(sessionId := Some(s)), s);
    case Created(s) =>
      ConnectKeepsInv(c.(sessionId := Some(s)), s);
    case Settle(a, outcome) => SettleKeepsInv(c, a, outcome);
    case Deliver(a) => DeliverKeepsInv(c, a);
    case SourceFailed(a) => FailKeepsInv(c, a);
    case TimerFired =>
      if c.timer.Some? && Truthy(c.sessionId) {
        ConnectKeepsInv(c.(timer := None), c.sessionId.value);
      }
    case _ =>
  }

  lemma {:induction false} RunKeepsInv(c: Client, events: seq<Event>)
    requires Inv(c)
    ensures Inv(Run(c, events))
    decreases |events|
  {
    if events != [] {
      StepKeepsInv(c, events[0]);
      RunKeepsInv(Step(c, events[0]), events[1..]);
    }
  }

  // ---- Phases ----

  ghost predicate Probing(c: Client) {
    c.sseAttempt in c.probes
  }

  ghost predicate Streaming(c: Client) {
    c.source.Some? && !c.source.value.closed
  }

  ghost predicate Waiting(c: Client) {
    c.timer.Some?
  }

  ghost predicate Idle(c: Client) {
    !Probing(c) && !Streaming(c) && !Waiting(c)
  }

  function Count(b: bool): nat {
    if b then 1 else 0
  }

  // In every reachable state an attached client is in exactly one phase; at most one event source
  // is live, it belongs to the current session and was opened by the newest attempt.
  lemma ExactlyOnePhase(events: seq<Event>)
    ensures var c := Run(Fresh, events);
            && (c.sessionId.Some? ==> Count(Probing(c)) + Count(Streaming(c)) + Count(Waiting(c)) + Count(Idle(c)) == 1)
            && |c.live| <= 1
            && (forall a :: a in c.live <==> Streaming(c) && a == c.source.value.attempt)
            && (Streaming(c) ==> c.sessionId == Some(c.source.value.session) && c.source.value.attempt == c.sseAttempt)
            && (c.sessionId.None? ==> c.live == {} && c.timer.None?)
  {
    RunKeepsInv(Fresh, events);
  }

  // An event source is opened only by the newest probe of the attached session, and it resumes
  // from the last event id the client holds.
  lemma OpenedByNewest(events: seq<Event>, e: Event)
    ensures var c := Run(Fresh, events);
            var d := Step(c, e);
            Streaming(d) && !(Streaming(c) && c.source.value.attempt == d.source.value.attempt) ==>
              && e == Deliver(c.sseAttempt) && c.sseAttempt in c.probes
              && c.sessionId == Some(d.source.value.session)
              && d.source.value.resume == c.lastEventId
              && c.live == {} && d.live == {c.sseAttempt}
  {
    RunKeepsInv(Fresh, events);
  }

  // The newest probe reports an issue that will not be retried.
  ghost predicate ReportsFinal(c: Client, e: Event) {
    e == Deliver(c.sseAttempt) && |Step(c, e).issues| == |c.issues| + 1 && !Step(c, e).issues[|c.issues|].retryable
  }

  // In every run an attached client falls idle exactly when a final issue is reported or when the
  // timer fires for an empty session id; the final issue is an ownership conflict of the session.
  lemma FallsIdleIff(events: seq<Event>, e: Event)
    ensures var c := Run(Fresh, events);
            var d := Step(c, e);
            d.sessionId.Some? && !(Idle(c) && c.sessionId == d.sessionId) ==>
              && (Idle(d) <==> ReportsFinal(c, e) || (e == TimerFired && c.sessionId == Some("") && Waiting(c)))
              && (ReportsFinal(c, e) ==>
                    d.issues[|c.issues|].status == CONFLICT && d.sessionId == Some(d.issues[|c.issues|].sessionId))
  {
    RunKeepsInv(Fresh, events);
    StepKeepsInv(Run(Fresh, events), e);
  }

  // A run to the second case: the client stays attached to the empty id, idle, with no final issue.
  lemma EmptySessionStalls()
    ensures var c := Run(Fresh, [Attach(""), Settle(1, Refused(500)), Deliver(1)]);
            && c.sessionId == Some("") && Waiting(c)
            && Idle(Step(c, TimerFired)) && Step(c, TimerFired).sessionId == Some("")
            && forall i :: i in Step(c, TimerFired).issues ==> i.retryable
  {
    var c1 := Step(Fresh, Attach(""));
    var c2 := Step(c1, Settle(1, Refused(500)));
    var c3 := Step(c2, Deliver(1));
    assert c3.timer == Some(RECONNECT_DELAY_MS) && c3.issues == [Issue("", 500, true, None)];
    assert Run(c2, [Deliver(1)]) == c3;
    assert Run(c1, [Settle(1, Refused(500)), Deliver(1)]) == Run(c2, [Deliver(1)]);
  }

  // ---- Ownership conflicts ----

  ghost predicate SettlesFor(c: Client, e: Event, s: string) {
    e.Settle? && e.attempt in c.probes && c.probes[e.attempt].progress.InFlight? && c.probes[e.attempt].session == s
  }

  ghost predicate Conflicts(c: Client, e: Event, s: string) {
    SettlesFor(c, e, s) && e.outcome == Refused(CONFLICT)
  }

  // The events that forget the conflicts of session s.
  ghost predicate Clears(c: Client, e: Event, s: string) {
    || (SettlesFor(c, e, s) && !e.outcome.Refused?)
    || (e.Attach? && s != "" && c.sessionId == Some(s) && e.sessionId != s)
    || e.Disconnect?
  }

  // Conflicts of session s since they were last forgotten, n at the start.
  ghost function Tally(c: Client, events: seq<Event>, s: string, n: nat): nat
    decreases |events|
  {
    if events == [] then n
    else
      var m := if Clears(c, events[0], s) then 0 else if Conflicts(c, events[0], s) then n + 1 else n;
      Tally(Step(c, events[0]), events[1..], s, m)
  }

  // Over every run the retry table counts conflicts modulo five, whatever the other sessions do.
  lemma {:induction false} RetriesCountConflicts(c: Client, events: seq<Event>, s: string, n: nat)
    requires Inv(c) && Retries(c, s) == n % (RETRY_LIMIT + 1)
    ensures Retries(Run(c, events), s) == Tally(c, events, s, n) % (RETRY_LIMIT + 1)
    decreases |events|
  {
    if events != [] {
      var e := events[0];
      var m := if Clears(c, e, s) then 0 else if Conflicts(c, e, s) then n + 1 else n;
      StepKeepsInv(c, e);
      RetryStep(c, e, s, n);
      RetriesCountConflicts(Step(c, e), events[1..], s, m);
    }
  }

  lemma RetryStep(c: Client, e: Event, s: string, n: nat)
    requires Inv(c) && Retries(c, s) == n % (RETRY_LIMIT + 1)
    ensures Retries(Step(c, e), s)
         == (if Clears(c, e, s) then 0 else if Conflicts(c, e, s) then n + 1 else n) % (RETRY_LIMIT + 1)
  {
    if Conflicts(c, e, s) {
      assert (n + 1) % 5 == if n % 5 == 4 then 0 else n % 5 + 1;
    }
  }

  // The k-th conflict since the last clearing waits 1200 * 2^(k-1) ms for k up to 4; the fifth is
  // final, and the count starts over. The cap of 10 seconds is never reached.
  lemma ConflictDelays(events: seq<Event>, e: Event, s: string)
    requires Conflicts(Run(Fresh, events), e, s)
    ensures var c := Run(Fresh, events);
            var k := Tally(Fresh, events, s, 0) % (RETRY_LIMIT + 1) + 1;
            var p := Step(c, e).probes[e.attempt];
            && p.progress.Settled? && p.progress.issue.Some?
            && var i := p.progress.issue.value;
               if k <= RETRY_LIMIT
               then && i.retryable && i.retryDelayMs == Some(BASE_DELAY_MS * Pow(2, k - 1))
                    && BASE_DELAY_MS * Pow(2, k - 1) < MAX_DELAY_MS
               else !i.retryable && i.retryDelayMs == None
  {
    var c := Run(Fresh, events);
    RunKeepsInv(Fresh, events);
    RetriesCountConflicts(Fresh, events, s, 0);
    assert Pow(2, 0) == 1 && Pow(2, 1) == 2 && Pow(2, 2) == 4 && Pow(2, 3) == 8;
    assert Retries(c, s) in {0, 1, 2, 3, 4};
  }

  // ---- What becomes of a probe ----

  // A probe whose fetch has ended keeps its result until it is delivered, and is delivered once.
  lemma {:induction false} SettledStays(c: Client, events: seq<Event>, a: nat, p: Probe)
    requires Inv(c) && a <= c.sseAttempt && p.progress.Settled? && (a in c.probes ==> c.probes[a] == p)
    ensures var d := Run(c, events);
            a <= d.sseAttempt && (a in d.probes ==> d.probes[a] == p)
    decreases |events|
  {
    if events != [] {
      StepKeepsInv(c, events[0]);
      SettledStaysStep(c, events[0], a, p);
      SettledStays(Step(c, events[0]), events[1..], a, p);
    }
  }

  lemma SettledStaysStep(c: Client, e: Event, a: nat, p: Probe)
    requires a <= c.sseAttempt && p.progress.Settled? && (a in c.probes ==> c.probes[a] == p)
    ensures var d := Step(c, e);
            a <= d.sseAttempt && (a in d.probes ==> d.probes[a] == p)
  {
  }

  // The probe is the newest one and its session is still attached.
  ghost predicate Current(c: Client, a: nat, s: string) {
    a == c.sseAttempt && a in c.probes && c.sessionId == Some(s)
  }

  // The state in which probe a is about to be delivered: its fetch ended with `outcome` after `before`.
  ghost function AtDelivery(before: seq<Event>, a: nat, outcome: Outcome, between: seq<Event>): Client {
    Run(Step(Run(Fresh, before), Settle(a, outcome)), between)
  }

  lemma DeliveredIs(before: seq<Event>, a: nat, outcome: Outcome, between: seq<Event>)
    requires a in Run(Fresh, before).probes && Run(Fresh, before).probes[a].progress.InFlight?
    ensures var m := AtDelivery(before, a, outcome, between);
            Inv(m) && (a in m.probes ==> m.probes[a] == Step(Run(Fresh, before), Settle(a, outcome)).probes[a])
  {
    var c := Run(Fresh, before);
    var d := Step(c, Settle(a, outcome));
    RunKeepsInv(Fresh, before);
    StepKeepsInv(c, Settle(a, outcome));
    RunKeepsInv(d, between);
    SettledStays(d, between, a, d.probes[a]);
  }

  // The newest probe of the attached session reports its issue and arms the timer if it is to be retried.
  lemma DeliveryReports(m: Client, a: nat, issue: Issue)
    requires Inv(m) && a in m.probes && m.probes[a].progress == Settled(Some(issue)) && Current(m, a, m.probes[a].session)
    ensures Step(m, Deliver(a))
         == m.(probes := m.probes - {a}, issues := m.issues + [issue],
               timer := if !issue.retryable then None
                        else if issue.retryDelayMs.Some? then issue.retryDelayMs else Some(2000))
  {
  }

  // When the newest probe delivers the k-th conflict of its session since the last clearing, the client
  // waits 1200, 2400, 4800 or 9600 ms, and after the fifth not at all.
  lemma ConflictArmsTimer(before: seq<Event>, a: nat, between: seq<Event>)
    requires a in Run(Fresh, before).probes && Run(Fresh, before).probes[a].progress.InFlight?
    ensures var s := Run(Fresh, before).probes[a].session;
            var k := Tally(Fresh, before, s, 0) % 5 + 1;
            var m := AtDelivery(before, a, Refused(409), between);
            var d := Step(m, Deliver(a));
            Current(m, a, s) ==>
              && d.timer == (if k == 1 then Some(1200) else if k == 2 then Some(2400)
                             else if k == 3 then Some(4800) else if k == 4 then Some(9600) else None)
              && d == m.(probes := m.probes - {a}, timer := d.timer, issues := m.issues + [Issue(s, 409, k < 5, d.timer)])
  {
    hide Run, Tally, Inv;
    var c := Run(Fresh, before);
    var s := c.probes[a].session;
    var m := AtDelivery(before, a, Refused(409), between);
    ConflictDelays(before, Settle(a, Refused(409)), s);
    DeliveredIs(before, a, Refused(409), between);
    if Current(m, a, s) {
      DeliveryReports(m, a, m.probes[a].progress.issue.value);
    }
    assert Pow(2, 0) == 1 && Pow(2, 1) == 2 && Pow(2, 2) == 4 && Pow(2, 3) == 8;
  }

  // Any other refusal is retried after two seconds.
  lemma RefusalArmsTimer(before: seq<Event>, a: nat, status: nat, between: seq<Event>)
    requires a in Run(Fresh, before).probes && Run(Fresh, before).probes[a].progress.InFlight? && status != 409
    ensures var s := Run(Fresh, before).probes[a].session;
            var m := AtDelivery(before, a, Refused(status), between);
            var d := Step(m, Deliver(a));
            Current(m, a, s) ==>
              d == m.(probes := m.probes - {a}, timer := Some(2000), issues := m.issues + [Issue(s, status, true, None)])
  {
    DeliveredIs(before, a, Refused(status), between);
  }

  // A probe that is answered, or whose fetch fails, opens the event source from where it resumes.
  lemma AnswerOpensSource(before: seq<Event>, a: nat, outcome: Outcome, between: seq<Event>)
    requires a in Run(Fresh, before).probes && Run(Fresh, before).probes[a].progress.InFlight? && !outcome.Refused?
    ensures var p := Run(Fresh, before).probes[a];
            var m := AtDelivery(before, a, outcome, between);
            var d := Step(m, Deliver(a));
            Current(m, a, p.session) ==>
              d == m.(probes := m.probes - {a}, source := Some(Source(a, p.session, p.resume, false)), live := {a})
  {
    DeliveredIs(before, a, outcome, between);
  }

  // A probe that is not the newest, or whose session was left, is dropped without effect.
  lemma StaleProbeIsDropped(before: seq<Event>, a: nat, outcome: Outcome, between: seq<Event>)
    requires a in Run(Fresh, before).probes && Run(Fresh, before).probes[a].progress.InFlight?
    ensures var m := AtDelivery(before, a, outcome, between);
            !Current(m, a, Run(Fresh, before).probes[a].session) ==>
              Step(m, Deliver(a)) == m.(probes := m.probes - {a})
  {
    DeliveredIs(before, a, outcome, between);
    var m := AtDelivery(before, a, outcome, between);
    if a !in m.probes {
      assert m.probes - {a} == m.probes;
    }
  }

  // A live event source that closes is replaced after two seconds; nothing else happens, and nothing at all
  // when a source fails that is not live.
  lemma ClosedSourceArmsTimer(events: seq<Event>, a: nat)
    ensures var c := Run(Fresh, events);
            Step(c, SourceFailed(a))
              == if a in c.live && c.source.Some?
                 then c.(live := {}, source := Some(c.source.value.(closed := true)), timer := Some(2000)) else c
  {
    RunKeepsInv(Fresh, events);
  }

  // When a fetch ends, the retries of its session are all that changes besides the probe itself.
  lemma SettleChangesProbe(events: seq<Event>, a: nat, outcome: Outcome)
    ensures var c := Run(Fresh, events);
            var d := Step(c, Settle(a, outcome));
            if a in c.probes && c.probes[a].progress.InFlight?
            then && d == c.(retry := d.retry, probes := c.probes[a := d.probes[a]])
                 && (forall s :: s != c.probes[a].session ==> Retries(d, s) == Retries(c, s))
                 && d.probes[a] == c.probes[a].(progress := d.probes[a].progress) && d.probes[a].progress.Settled?
                 && (d.probes[a].progress.issue.Some? <==> outcome.Refused?)
            else d == c
  {
  }

  // A timer is armed by these events alone, and once armed it stays as it is until it fires or the client
  // attaches again or disconnects.
  lemma TimerChanges(events: seq<Event>, e: Event)
    ensures var c := Run(Fresh, events);
            var d := Step(c, e);
            && (c.timer.None? && d.timer.Some? ==> e == Deliver(c.sseAttempt) || (e.SourceFailed? && e.attempt in c.live))
            && (c.timer.Some? && !e.TimerFired? && !e.Attach? && !e.Created? && !e.Disconnect? ==> d.timer == c.timer)
  {
    RunKeepsInv(Fresh, events);
  }

  // When the timer fires for a session, the client probes it again from the last event it holds.
  lemma TimerReconnects(events: seq<Event>, s: string)
    ensures var c := Run(Fresh, events);
            var d := Step(c, TimerFired);
            c.timer.Some? && c.sessionId == Some(s) && s != "" ==>
              && d == c.(timer := None, source := None, sseAttempt := c.sseAttempt + 1,
                         probes := c.probes[c.sseAttempt + 1 := Probe(s, c.lastEventId, InFlight)])
  {
    RunKeepsInv(Fresh, events);
  }

  // Attaching starts a probe of the session at once and closes what was open. The last event id survives
  // where the session id was the same already: newSession and loadSession have set it before they attach.
  lemma AttachProbes(events: seq<Event>, s: string)
    ensures var c := Run(Fresh, events);
            var (d, n) := (Step(c, Attach(s)), Step(c, Created(s)));
            var cursor := if c.sessionId == Some(s) then c.lastEventId else None;
            && d.sessionId == n.sessionId == Some(s) && d.timer == n.timer == None
            && d.source == n.source == None && d.live == n.live == {}
            && d.sseAttempt == n.sseAttempt == c.sseAttempt + 1
            && d.lastEventId == cursor && n.lastEventId == c.lastEventId
            && d.probes == c.probes[c.sseAttempt + 1 := Probe(s, cursor, InFlight)]
            && n.probes == c.probes[c.sseAttempt + 1 := Probe(s, c.lastEventId, InFlight)]
            && d.issues == n.issues == c.issues
  {
    RunKeepsInv(Fresh, events);
  }

  // In every run the last event id is that of the newest message of the open source that has one, and is
  // dropped when the client attaches to another session or disconnects; nothing else changes it.
  lemma CursorMoves(events: seq<Event>, e: Event)
    ensures var c := Run(Fresh, events);
            Step(c, e).lastEventId
              == if e.SourceMessage? && e.eventId != "" && c.source.Some? && !c.source.value.closed
                    && c.source.value.attempt == e.attempt then Some(e.eventId)
                 else if e.Disconnect? || (e.Attach? && c.sessionId != Some(e.sessionId)) then None
                 else c.lastEventId
  {
    RunKeepsInv(Fresh, events);
  }

  // Disconnecting leaves the probes under way, whose results are then dropped, and the number of the last attempt.
  lemma DisconnectClears(events: seq<Event>)
    ensures var c := Run(Fresh, events);
            Step(c, Disconnect) == Client(None, None, c.sseAttempt, None, None, map[], c.probes, {}, c.issues)
  {
    RunKeepsInv(Fresh, events);
  }

  // A refused probe counts even when its session was left: here one late conflict uses up a retry
  // of the next attachment.
  lemma LateConflictCounts()
    ensures var c := Run(Fresh, [Attach("s"), Disconnect, Settle(1, Refused(CONFLICT)), Attach("s")]);
            Retries(c, "s") == 1
  {
    var c1 := Step(Fresh, Attach("s"));
    var c2 := Step(c1, Disconnect);
    var c3 := Step(c2, Settle(1, Refused(CONFLICT)));
    var c4 := Step(c3, Attach("s"));
    assert Retries(c4, "s") == 1;
    assert Run(c3, [Attach("s")]) == c4;
    assert Run(c2, [Settle(1, Refused(CONFLICT)), Attach("s")]) == Run(c3, [Attach("s")]);
    assert Run(c1, [Disconnect, Settle(1, Refused(CONFLICT)), Attach("s")])
        == Run(c2, [Settle(1, Refused(CONFLICT)), Attach("s")]);
  }

  // ---- The event cursor ----

  // The session whose event source delivered the last event id, o before the event.
  ghost function CursorOwner(c: Client, e: Event, o: Option<string>): Option<string> {
    if e.SourceMessage? && e.attempt in c.live && e.eventId != "" && c.source.Some? then Some(c.source.value.session) else o
  }

  ghost predicate CursorOwned(c: Client, o: Option<string>) {
    c.lastEventId.Some? ==> o == c.sessionId
  }

  // newSession and loadSession set the session id before attaching, which skips the reset of the cursor.
  ghost predicate KeepsForeignCursor(c: Client, e: Event) {
    e.Created? && c.lastEventId.Some? && c.sessionId != Some(e.sessionId)
  }

  // One step hands the cursor of one session to another exactly in that case.
  lemma CursorStep(c: Client, e: Event, o: Option<string>)
    requires Inv(c) && CursorOwned(c, o)
    ensures CursorOwned(Step(c, e), CursorOwner(c, e, o)) <==> !KeepsForeignCursor(c, e)
  {
  }

  ghost predicate AlwaysOwned(c: Client, events: seq<Event>, o: Option<string>)
    decreases |events|
  {
    CursorOwned(c, o) && (events != [] ==> AlwaysOwned(Step(c, events[0]), events[1..], CursorOwner(c, events[0], o)))
  }

  ghost predicate NeverKeepsForeign(c: Client, events: seq<Event>)
    decreases |events|
  {
    events != [] ==> !KeepsForeignCursor(c, events[0]) && NeverKeepsForeign(Step(c, events[0]), events[1..])
  }

  // Over a run the cursor always belongs to the attached session if and only if no session is
  // created or loaded while another session's cursor is held.
  lemma {:induction false} CursorOwnedIff(c: Client, events: seq<Event>, o: Option<string>)
    requires Inv(c) && CursorOwned(c, o)
    ensures AlwaysOwned(c, events, o) <==> NeverKeepsForeign(c, events)
    decreases |events|
  {
    if events != [] {
      StepKeepsInv(c, events[0]);
      CursorStep(c, events[0], o);
      if !KeepsForeignCursor(c, events[0]) {
        CursorOwnedIff(Step(c, events[0]), events[1..], CursorOwner(c, events[0], o));
      } else {
        assert !AlwaysOwned(Step(c, events[0]), events[1..], CursorOwner(c, events[0], o));
      }
    }
  }

  // A run in which the new session resumes from the old session's event.
  lemma ForeignCursorRun()
    ensures var c := Run(Fresh, [Attach("a"), Settle(1, Accepted), Deliver(1), SourceMessage(1, "7"), Created("b")]);
            c.sessionId == Some("b") && 2 in c.probes && c.probes[2].resume == Some("7")
  {
    var c1 := Step(Fresh, Attach("a"));
    var c2 := Step(c1, Settle(1, Accepted));
    var c3 := Step(c2, Deliver(1));
    var c4 := Step(c3, SourceMessage(1, "7"));
    var c5 := Step(c4, Created("b"));
    assert c3.source == Some(Source(1, "a", None, false));
    assert c5.sessionId == Some("b") && c5.probes[2].resume == Some("7");
    assert Run(c4, [Created("b")]) == c5;
    assert Run(c3, [SourceMessage(1, "7"), Created("b")]) == Run(c4, [Created("b")]);
    assert Run(c2, [Deliver(1), SourceMessage(1, "7"), Created("b")]) == Run(c3, [SourceMessage(1, "7"), Created("b")]);
    assert Run(c1, [Settle(1, Accepted), Deliver(1), SourceMessage(1, "7"), Created("b")])
        == Run(c2, [Deliver(1), SourceMessage(1, "7"), Created("b")]);
  }
}

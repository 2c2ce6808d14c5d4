// The pending-request tables of the OpenCode bridge: requests, responses, timeouts and process
// exits of several sessions that share one id counter. Response matching follows section 5 of the
// JSON-RPC 2.0 specification: a response carries the id of its request.
module Bridge {
  import opened Wrappers
  import opened Seqs

  type SessionId = nat

  // The id member of a message: missing or null, a number, or a string.
  datatype MessageId = NoId | Number(n: int) | Text(s: string)
  // The error member: missing, present but falsy (null, say), or an error object.
  datatype ErrorMember = Missing | Falsy | Present(code: int)
  datatype Message = Message(id: MessageId, result: Option<string>, error: ErrorMember, hasMethod: bool, isUpdate: bool)

  datatype Outcome = Resolved(result: Option<string>) | RejectedWith(code: int) | TimedOut | Exited
  datatype Settlement = Settlement(id: nat, outcome: Outcome)

  // What _handleMsg does with a message that settles no request.
  datatype Handling = Settles | AnswersAgent | Broadcasts | Ignores

  // `pending` keeps the ids of each session in the order they were added; `timers` are the armed
  // timeouts; `settled` logs every call of a resolve or reject function.
  datatype State = State(
    nextReqId: nat,
    pending: map<SessionId, seq<nat>>,
    timers: set<(SessionId, nat)>,
    settled: seq<Settlement>)

  datatype Event =
    | Open(s: SessionId)
    | Request(s: SessionId)
    | Receive(s: SessionId, msg: Message)
    | Timeout(s: SessionId, id: nat)
    | Exit(s: SessionId)

  const Initial := State(1, map[], {}, [])

  predicate IsResponse(msg: Message) {
    !msg.id.NoId? && (msg.result.Some? || !msg.error.Missing?)
  }

  // The response answers a pending request of the session: ids are compared strictly, so a string never matches.
  predicate Answers(st: State, s: SessionId, msg: Message) {
    IsResponse(msg) && msg.id.Number? && msg.id.n >= 0 && s in st.pending && msg.id.n in st.pending[s]
  }

  function OutcomeOf(msg: Message): Outcome {
    if msg.error.Present? then RejectedWith(msg.error.code) else Resolved(msg.result)
  }

  function HandlingOf(st: State, s: SessionId, msg: Message): Handling {
    if Answers(st, s, msg) then Settles
    else if !msg.id.NoId? && msg.hasMethod then AnswersAgent
    else if msg.hasMethod && msg.isUpdate then Broadcasts
    else Ignores
  }

  function Remove(ids: seq<nat>, id: nat): (r: seq<nat>)
    ensures forall x :: x in r <==> x in ids && x != id
  {
    if ids == [] then []
    else
      assert ids == [ids[0]] + ids[1..];
      (if ids[0] == id then [] else [ids[0]]) + Remove(ids[1..], id)
  }

  lemma {:induction false} RemoveIncreases(ids: seq<nat>, id: nat)
    requires Increasing(ids)
    ensures Increasing(Remove(ids, id))
    decreases |ids|
  {
    if ids != [] {
      var rest := Remove(ids[1..], id);
      RemoveIncreases(ids[1..], id);
      forall k | 0 <= k < |rest| ensures ids[0] < rest[k] {
        var x := rest[k];
        assert x in rest && x in ids[1..];
      }
    }
  }

  function Settle(st: State, s: SessionId, id: nat, outcome: Outcome): State
    requires s in st.pending
  {
    st.(pending := st.pending[s := Remove(st.pending[s], id)],
        timers := st.timers - {(s, id)},
        settled := st.settled + [Settlement(id, outcome)])
  }

  function SettleAll(st: State, s: SessionId, ids: seq<nat>): State
    requires s in st.pending
    ensures SettleAll(st, s, ids).pending.Keys == st.pending.Keys
    decreases |ids|
  {
    if ids == [] then st else SettleAll(Settle(st, s, ids[0], Exited), s, ids[1..])
  }

  function Step(st: State, e: Event): State {
    match e
    case Open(s) => if s in st.pending then st else st.(pending := st.pending[s := []])
    case Request(s) =>
      if s !in st.pending then st
      else
        var id := st.nextReqId;
        st.(nextReqId := id + 1, pending := st.pending[s := st.pending[s] + [id]], timers := st.timers + {(s, id)})
    case Receive(s, msg) => if Answers(st, s, msg) then Settle(st, s, msg.id.n, OutcomeOf(msg)) else st
    case Timeout(s, id) => if (s, id) in st.timers && s in st.pending then Settle(st, s, id, TimedOut) else st
    case Exit(s) => if s in st.pending then SettleAll(st, s, st.pending[s]) else st
  }

  function Run(st: State, events: seq<Event>): State
    decreases |events|
  {
    if events == [] then st else Run(Step(st, events[0]), events[1..])
  }

  // ---- Safety ----

  ghost predicate SettledIn(st: State, id: nat) {
    exists i :: 0 <= i < |st.settled| && st.settled[i].id == id
  }

  ghost predicate PendingIn(st: State, id: nat) {
    exists s :: s in st.pending && id in st.pending[s]
  }

  ghost predicate TableOk(st: State, s: SessionId)
    requires s in st.pending
  {
    && Increasing(st.pending[s])
    && forall id {:trigger id in st.pending[s]} :: id in st.pending[s] ==> 1 <= id < st.nextReqId && !SettledIn(st, id)
  }

  ghost predicate Apart(st: State) {
    forall s, t, id :: s in st.pending && t in st.pending && id in st.pending[s] && id in st.pending[t] ==> s == t
  }

  ghost predicate TimersOk(st: State) {
    forall s, id :: (s, id) in st.timers <==> s in st.pending && id in st.pending[s]
  }

  ghost predicate SettledOnce(st: State) {
    && (forall i, j :: 0 <= i < j < |st.settled| ==> st.settled[i].id != st.settled[j].id)
    && forall i :: 0 <= i < |st.settled| ==> 1 <= st.settled[i].id < st.nextReqId
  }

  // Every request issued so far is either pending, with its timer armed, or settled, once.
  ghost predicate Inv(st: State) {
    && st.nextReqId >= 1
    && (forall s {:trigger TableOk(st, s)} {:trigger st.pending[s]} :: s in st.pending ==> TableOk(st, s))
    && Apart(st) && TimersOk(st) && SettledOnce(st)
    && forall id: nat {:trigger PendingIn(st, id)} :: 1 <= id < st.nextReqId ==> PendingIn(st, id) || SettledIn(st, id)
  }

  lemma SettledAfter(st: State, s: SessionId, id: nat, outcome: Outcome)
    requires s in st.pending
    ensures forall x: nat :: SettledIn(Settle(st, s, id, outcome), x) <==> SettledIn(st, x) || x == id
  {
    var d := Settle(st, s, id, outcome);
    forall x: nat ensures SettledIn(d, x) <==> SettledIn(st, x) || x == id {
      if SettledIn(st, x) {
        var i :| 0 <= i < |st.settled| && st.settled[i].id == x;
        assert d.settled[i].id == x;
      }
      if x == id {
        assert d.settled[|st.settled|].id == x;
      }
      if SettledIn(d, x) {
        var i :| 0 <= i < |d.settled| && d.settled[i].id == x;
        assert i < |st.settled| ==> st.settled[i].id == x;
      }
    }
  }

  // Replacing one session's table changes what is pending by that table only.
  lemma PendingAfter(st: State, d: State, s: SessionId, ids: seq<nat>, x: nat)
    requires s in st.pending && d.pending == st.pending[s := ids]
    requires forall t :: t in st.pending && x in st.pending[t] && x in st.pending[s] ==> t == s
    ensures PendingIn(d, x) <==> x in ids || (PendingIn(st, x) && x !in st.pending[s])
  {
    if x in ids {
      assert s in d.pending && x in d.pending[s];
    }
    if PendingIn(st, x) {
      var t :| t in st.pending && x in st.pending[t];
      assert t in d.pending && (t != s ==> x in d.pending[t]);
    }
    if PendingIn(d, x) {
      var t :| t in d.pending && x in d.pending[t];
      assert t in st.pending;
    }
  }

  lemma SettleKeepsInv(st: State, s: SessionId, id: nat, outcome: Outcome)
    requires Inv(st) && s in st.pending && id in st.pending[s]
    ensures Inv(Settle(st, s, id, outcome))
  {
    var d := Settle(st, s, id, outcome);
    SettledAfter(st, s, id, outcome);
    assert TableOk(st, s);
    RemoveIncreases(st.pending[s], id);
    forall t | t in d.pending ensures TableOk(d, t) {
      assert TableOk(st, t);
    }
    forall x: nat | 1 <= x < d.nextReqId ensures PendingIn(d, x) || SettledIn(d, x) {
      PendingAfter(st, d, s, Remove(st.pending[s], id), x);
    }
    forall i, j | 0 <= i < j < |d.settled| ensures d.settled[i].id != d.settled[j].id {
      if j == |st.settled| {
        assert SettledIn(st, st.settled[i].id);
      }
    }
  }

  lemma RequestTables(st: State, s: SessionId, t: SessionId)
    requires Inv(st) && s in st.pending && t in st.pending
    ensures TableOk(Step(st, Request(s)), t)
  {
    var d := Step(st, Request(s));
    assert TableOk(st, t);
    assert !SettledIn(st, st.nextReqId);
    assert forall i :: 0 <= i < |st.pending[t]| ==> st.pending[t][i] in st.pending[t];
    forall x | x in d.pending[t] ensures 1 <= x < d.nextReqId && !SettledIn(d, x) {
      assert x in st.pending[t] || x == st.nextReqId;
      assert d.settled == st.settled;
    }
  }

  lemma RequestApart(st: State, s: SessionId)
    requires Inv(st) && s in st.pending
    ensures Apart(Step(st, Request(s)))
  {
    var d := Step(st, Request(s));
    forall t, u, id | t in d.pending && u in d.pending && id in d.pending[t] && id in d.pending[u] ensures t == u {
      assert TableOk(st, t) && TableOk(st, u);
      assert id in st.pending[t] || (t == s && id == st.nextReqId);
      assert id in st.pending[u] || (u == s && id == st.nextReqId);
    }
  }

  lemma RequestKeepsInv(st: State, s: SessionId)
    requires Inv(st) && s in st.pending
    ensures Inv(Step(st, Request(s)))
  {
    var d := Step(st, Request(s));
    forall t | t in d.pending ensures TableOk(d, t) {
      RequestTables(st, s, t);
    }
    RequestApart(st, s);
    RequestTimers(st, s);
    forall x: nat | 1 <= x < d.nextReqId ensures PendingIn(d, x) || SettledIn(d, x) {
      PendingAfter(st, d, s, st.pending[s] + [st.nextReqId], x);
      assert x < st.nextReqId ==> PendingIn(st, x) || SettledIn(st, x);
      assert SettledIn(st, x) ==> SettledIn(d, x);
    }
  }

  lemma RequestTimers(st: State, s: SessionId)
    requires TimersOk(st) && s in st.pending
    ensures TimersOk(Step(st, Request(s)))
  {
  }

  lemma HeadAndTail(ids: seq<nat>)
    requires ids != [] && Increasing(ids)
    ensures Increasing(ids[1..]) && ids[0] !in ids[1..]
    ensures forall id: nat :: id in ids <==> id == ids[0] || id in ids[1..]
  {
    assert ids == [ids[0]] + ids[1..];
  }

  lemma {:induction false} SettleAllKeepsInv(st: State, s: SessionId, ids: seq<nat>)
    requires Inv(st) && s in st.pending && (forall id :: id in ids ==> id in st.pending[s])
    requires Increasing(ids)
    ensures Inv(SettleAll(st, s, ids))
    ensures forall id :: id in SettleAll(st, s, ids).pending[s] <==> id in st.pending[s] && id !in ids
    ensures st.settled <= SettleAll(st, s, ids).settled
    decreases |ids|
  {
    if ids != [] {
      HeadAndTail(ids);
      SettleKeepsInv(st, s, ids[0], Exited);
      SettleAllKeepsInv(Settle(st, s, ids[0], Exited), s, ids[1..]);
    }
  }

  lemma OpenKeepsInv(st: State, s: SessionId)
    requires Inv(st)
    ensures Inv(Step(st, Open(s)))
  {
    var d := Step(st, Open(s));
    if s !in st.pending {
      forall t | t in d.pending ensures TableOk(d, t) {
        assert t != s ==> TableOk(st, t);
      }
      forall x: nat | 1 <= x < d.nextReqId ensures PendingIn(d, x) || SettledIn(d, x) {
        if PendingIn(st, x) {
          var t :| t in st.pending && x in st.pending[t];
          assert t in d.pending && x in d.pending[t];
        }
        assert SettledIn(st, x) ==> SettledIn(d, x);
      }
    }
  }

  lemma StepKeepsInv(st: State, e: Event)
    requires Inv(st)
    ensures Inv(Step(st, e)) && st.settled <= Step(st, e).settled
  {
    match e
    case Open(s) => OpenKeepsInv(st, s);
    case Request(s) =>
      if s in st.pending {
        RequestKeepsInv(st, s);
      }
    case Receive(s, msg) =>
      if Answers(st, s, msg) {
        SettleKeepsInv(st, s, msg.id.n, OutcomeOf(msg));
      }
    case Timeout(s, id) =>
      if (s, id) in st.timers && s in st.pending {
        SettleKeepsInv(st, s, id, TimedOut);
      }
    case Exit(s) =>
      if s in st.pending {
        assert TableOk(st, s);
        SettleAllKeepsInv(st, s, st.pending[s]);
      }
  }

  lemma {:induction false} RunKeepsInv(st: State, events: seq<Event>)
    requires Inv(st)
    ensures Inv(Run(st, events)) && st.settled <= Run(st, events).settled
    decreases |events|
  {
    if events != [] {
      StepKeepsInv(st, events[0]);
      RunKeepsInv(Step(st, events[0]), events[1..]);
    }
  }

  // In every run each issued request is settled at most once, exactly the unsettled ones are
  // pending, in one session, with an armed timer, and no id is issued twice.
  lemma EveryRequestOnce(events: seq<Event>)
    ensures var st := Run(Initial, events);
            && (forall i, j :: 0 <= i < j < |st.settled| ==> st.settled[i].id != st.settled[j].id)
            && (forall id: nat :: 1 <= id < st.nextReqId <==> PendingIn(st, id) || SettledIn(st, id))
            && (forall id: nat :: !(PendingIn(st, id) && SettledIn(st, id)))
            && (forall s, id :: (s, id) in st.timers <==> s in st.pending && id in st.pending[s])
            && (forall s, t, id ::
                  s in st.pending && t in st.pending && id in st.pending[s] && id in st.pending[t] ==> s == t)
  {
    RunKeepsInv(Initial, events);
    var st := Run(Initial, events);
    forall id: nat
      ensures PendingIn(st, id) ==> 1 <= id < st.nextReqId && !SettledIn(st, id)
      ensures SettledIn(st, id) ==> 1 <= id < st.nextReqId
    {
      if PendingIn(st, id) {
        var s :| s in st.pending && id in st.pending[s];
        assert TableOk(st, s);
      }
    }
  }

  // Once settled, a request keeps its outcome for the rest of the run.
  lemma OutcomeIsFinal(events: seq<Event>, later: seq<Event>, i: nat, j: nat)
    requires i < |Run(Initial, events).settled| && j < |Run(Run(Initial, events), later).settled|
    requires Run(Run(Initial, events), later).settled[j].id == Run(Initial, events).settled[i].id
    ensures i == j && Run(Run(Initial, events), later).settled[j] == Run(Initial, events).settled[i]
  {
    RunKeepsInv(Initial, events);
    RunKeepsInv(Run(Initial, events), later);
  }

  function ExitLog(ids: seq<nat>): seq<Settlement> {
    seq(|ids|, i requires 0 <= i < |ids| => Settlement(ids[i], Exited))
  }

  function TimersOf(s: SessionId, ids: seq<nat>): set<(SessionId, nat)> {
    set id | id in ids :: (s, id)
  }

  // Settling a list of ids one after the other.
  lemma {:induction false} SettleAllEffect(st: State, s: SessionId, ids: seq<nat>)
    requires s in st.pending
    ensures var d := SettleAll(st, s, ids);
            && d.nextReqId == st.nextReqId
            && d.settled == st.settled + ExitLog(ids)
            && d.timers == st.timers - TimersOf(s, ids)
            && d.pending == st.pending[s := d.pending[s]]
            && forall x :: x in d.pending[s] <==> x in st.pending[s] && x !in ids
    decreases |ids|
  {
    if ids != [] {
      var e := Settle(st, s, ids[0], Exited);
      SettleAllEffect(e, s, ids[1..]);
      assert ids == [ids[0]] + ids[1..];
      assert ExitLog(ids) == [Settlement(ids[0], Exited)] + ExitLog(ids[1..]);
      assert (st.settled + [Settlement(ids[0], Exited)]) + ExitLog(ids[1..])
          == st.settled + ([Settlement(ids[0], Exited)] + ExitLog(ids[1..]));
      assert TimersOf(s, ids) == {(s, ids[0])} + TimersOf(s, ids[1..]);
    } else {
      assert st.settled + [] == st.settled;
      assert st.pending == st.pending[s := st.pending[s]];
    }
  }

  lemma FirstIsMember(ids: seq<nat>)
    requires ids != []
    ensures ids[0] in ids
  {
  }

  // Exit settles what the session had pending, in order, and touches no other session.
  lemma ExitSettlesAll(st: State, s: SessionId)
    requires s in st.pending
    ensures Step(st, Exit(s)) == State(st.nextReqId, st.pending[s := []], st.timers - TimersOf(s, st.pending[s]),
                                       st.settled + ExitLog(st.pending[s]))
  {
    SettleAllEffect(st, s, st.pending[s]);
    var d := Step(st, Exit(s));
    if d.pending[s] != [] {
      FirstIsMember(d.pending[s]);
    }
  }

  // ---- What settles a request, and how ----

  ghost predicate Logged(st: State, id: nat, outcome: Outcome) {
    Settlement(id, outcome) in st.settled
  }

  ghost predicate PendingFor(st: State, s: SessionId, id: nat) {
    s in st.pending && id in st.pending[s]
  }

  // The event settles a pending request: a response with an error object rejects it with the code of that
  // object, any other response resolves it with its result; a timeout and an exit reject it as such.
  ghost predicate Causes(st: State, e: Event, id: nat, outcome: Outcome) {
    match e
    case Receive(s, msg) =>
      && PendingFor(st, s, id) && msg.id == Number(id)
      && (match msg.error
          case Present(code) => outcome == RejectedWith(code)
          case Falsy => outcome == Resolved(msg.result)
          case Missing => msg.result.Some? && outcome == Resolved(msg.result))
    case Timeout(s, i) => PendingFor(st, s, id) && i == id && outcome == TimedOut
    case Exit(s) => PendingFor(st, s, id) && outcome == Exited
    case _ => false
  }

  lemma ExitLogs(st: State, s: SessionId, id: nat, outcome: Outcome)
    requires s in st.pending
    ensures Logged(Step(st, Exit(s)), id, outcome) <==> Logged(st, id, outcome) || Causes(st, Exit(s), id, outcome)
  {
    ExitSettlesAll(st, s);
    var ids, log := st.pending[s], ExitLog(st.pending[s]);
    if Settlement(id, outcome) in log {
      var i :| 0 <= i < |log| && log[i] == Settlement(id, outcome);
      assert ids[i] == id;
    }
    if id in ids {
      var i :| 0 <= i < |ids| && ids[i] == id;
      assert log[i] == Settlement(id, Exited);
    }
  }

  lemma StepLogs(st: State, e: Event, id: nat, outcome: Outcome)
    requires Inv(st)
    ensures Logged(Step(st, e), id, outcome) <==> Logged(st, id, outcome) || Causes(st, e, id, outcome)
  {
    if e.Exit? && e.s in st.pending {
      ExitLogs(st, e.s, id, outcome);
    }
  }

  lemma {:induction false} RunAppend(st: State, events: seq<Event>, e: Event)
    ensures Run(st, events + [e]) == Step(Run(st, events), e)
    decreases |events|
  {
    if events == [] {
      assert Run(Step(st, e), []) == Step(st, e);
    } else {
      assert (events + [e])[1..] == events[1..] + [e];
      RunAppend(Step(st, events[0]), events[1..], e);
    }
  }

  // In every run a request is settled in a certain way exactly when an event that settles it so occurred
  // while it was pending.
  lemma {:induction false} SettledIff(events: seq<Event>, id: nat, outcome: Outcome)
    ensures Logged(Run(Initial, events), id, outcome)
       <==> exists k :: 0 <= k < |events| && Causes(Run(Initial, events[..k]), events[k], id, outcome)
    decreases |events|
  {
    if events != [] {
      var n := |events| - 1;
      var before := events[..n];
      SettledIff(before, id, outcome);
      assert events == before + [events[n]];
      RunAppend(Initial, before, events[n]);
      RunKeepsInv(Initial, before);
      StepLogs(Run(Initial, before), events[n], id, outcome);
      assert forall k :: 0 <= k < n ==> before[..k] == events[..k] && before[k] == events[k];
    }
  }

  // A request is pending from the moment it is sent in an open session until an event settles it, with
  // its timer armed all the while; ids are handed out in order.
  lemma PendingNext(events: seq<Event>, e: Event, s: SessionId, id: nat)
    ensures var c := Run(Initial, events);
            var d := Step(c, e);
            && (s in d.pending <==> s in c.pending || e == Open(s))
            && (PendingFor(d, s, id) <==>
                  || (PendingFor(c, s, id) && forall outcome :: !Causes(c, e, id, outcome))
                  || (s in c.pending && e == Request(s) && id == c.nextReqId))
            && ((s, id) in d.timers <==> PendingFor(d, s, id))
            && d.nextReqId == (if e.Request? && e.s in c.pending then c.nextReqId + 1 else c.nextReqId)
  {
    var c := Run(Initial, events);
    RunKeepsInv(Initial, events);
    StepKeepsInv(c, e);
    if e.Exit? && e.s in c.pending {
      ExitSettlesAll(c, e.s);
    }
    if PendingFor(c, s, id) {
      match e
      case Receive(t, msg) =>
        assert Answers(c, t, msg) && msg.id.n == id ==> Causes(c, e, id, OutcomeOf(msg));
      case Timeout(t, i) =>
        assert (t, i) in c.timers && i == id ==> Causes(c, e, id, TimedOut);
      case Exit(t) =>
        assert t == s ==> Causes(c, e, id, Exited);
      case _ =>
    }
  }

  // The tables themselves, updated in place by the handlers.
  class Tables {
    var nextReqId: nat
    var pending: map<SessionId, seq<nat>>
    ghost var timers: set<(SessionId, nat)>
    ghost var settled: seq<Settlement>

    ghost function View(): State
      reads this
    {
      State(nextReqId, pending, timers, settled)
    }

    constructor ()
      ensures View() == Initial && Inv(View())
    {
      nextReqId, pending := 1, map[];
      timers, settled := {}, [];
    }

    method OpenSession(s: SessionId)
      requires Inv(View()) && s !in pending
      modifies this
      ensures View() == Step(old(View()), Open(s)) && Inv(View())
    {
      StepKeepsInv(View(), Open(s));
      pending := pending[s := []];
    }

    // _request: number the request, arm its timeout, remember it.
    method SendRequest(s: SessionId) returns (id: nat)
      requires Inv(View()) && s in pending
      modifies this
      ensures View() == Step(old(View()), Request(s)) && Inv(View())
      ensures id in pending[s] && !SettledIn(View(), id)
    {
      StepKeepsInv(View(), Request(s));
      id := nextReqId;
      nextReqId := nextReqId + 1;
      timers := timers + {(s, id)};
      pending := pending[s := pending[s] + [id]];
      assert TableOk(View(), s);
    }

    method TimeoutFired(s: SessionId, id: nat)
      requires Inv(View()) && (s, id) in timers
      modifies this
      ensures View() == Step(old(View()), Timeout(s, id)) && Inv(View())
    {
      StepKeepsInv(View(), Timeout(s, id));
      timers := timers - {(s, id)};
      pending := pending[s := Remove(pending[s], id)];
      settled := settled + [Settlement(id, TimedOut)];
    }

    // _handleMsg: settle the request a response answers, or say where the message goes.
    method HandleMessage(s: SessionId, msg: Message) returns (handling: Handling)
      requires Inv(View()) && s in pending
      modifies this
      ensures View() == Step(old(View()), Receive(s, msg)) && Inv(View())
      ensures handling == HandlingOf(old(View()), s, msg)
      ensures handling.Settles? <==>
        && msg.id.Number? && msg.id.n >= 0 && msg.id.n in old(pending[s]) && msg.id.n !in pending[s]
      ensures handling.AnswersAgent? <==> !handling.Settles? && !msg.id.NoId? && msg.hasMethod
      ensures handling.Broadcasts? <==> !handling.Settles? && msg.id.NoId? && msg.hasMethod && msg.isUpdate
    {
      StepKeepsInv(View(), Receive(s, msg));
      if !msg.id.NoId? && (msg.result.Some? || !msg.error.Missing?) {
        if msg.id.Number? && msg.id.n >= 0 && msg.id.n in pending[s] {
          var id := msg.id.n;
          timers := timers - {(s, id)};
          pending := pending[s := Remove(pending[s], id)];
          settled := settled
            + [Settlement(id, if msg.error.Present? then RejectedWith(msg.error.code) else Resolved(msg.result))];
          return Settles;
        }
      }
      if !msg.id.NoId? && msg.hasMethod { return AnswersAgent; }
      if msg.hasMethod && msg.isUpdate { return Broadcasts; }
      return Ignores;
    }

    // The exit handler: reject everything pending, then clear the table.
    method ProcessExited(s: SessionId)
      requires Inv(View()) && s in pending
      modifies this
      ensures View() == Step(old(View()), Exit(s)) && Inv(View())
    {
      StepKeepsInv(View(), Exit(s));
      ExitSettlesAll(View(), s);
      var ids := pending[s];
      for i := 0 to |ids|
        invariant nextReqId == old(nextReqId) && pending == old(pending)
        invariant timers == old(timers) - TimersOf(s, ids[..i])
        invariant settled == old(settled) + ExitLog(ids[..i])
      {
        assert ids[..i + 1] == ids[..i] + [ids[i]];
        assert ExitLog(ids[..i + 1]) == ExitLog(ids[..i]) + [Settlement(ids[i], Exited)];
        assert TimersOf(s, ids[..i + 1]) == TimersOf(s, ids[..i]) + {(s, ids[i])};
        timers := timers - {(s, ids[i])};
        settled := settled + [Settlement(ids[i], Exited)];
      }
      assert ids[..|ids|] == ids;
      pending := pending[s := []];
    }
  }
}

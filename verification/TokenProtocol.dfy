/**
 The worker's credentials under concurrent use: any number of requests, registrations and token
 refreshes interleave at their await points over the shared fields `token`, `refresh_token_value`
 and the worker-token header.

 A task runs alone from one await to the next.  What the network answers is arbitrary.  The log
 records what is sent and when the token fields change; a task also remembers the positions of its
 own entries in the log, which plays no part in what it does.
 */
module TokenProtocol {
  import opened Wrappers

  datatype Kind = Request | Register | Refresh

  datatype Outcome =
    | Nothing | Answer(body: Reply) | Renewal(ok: bool)
    | AuthError | RateLimitError | ProtocolError | NetworkError | OtherError

  datatype Phase =
    | Idle
    | First                                             // the first send, awaiting its response
    | Refreshing                                        // the refresh call, awaiting its response
    | ReadingToken                                      // status 200, awaiting the refresh body
    | Leaving(renewed: bool)                            // leaving the refresh response
    | Copied(copy: string)                              // headers copied, leaving the first response
    | Second                                            // the second send, awaiting its response
    | Reading                                           // awaiting the body of a good response
    | ReadingFailure(outcome: Outcome)                  // awaiting the body of a 429 or an error response
    | Closing(outcome: Outcome)                         // leaving the response, the outcome in hand
    | Finished(outcome: Outcome)

  datatype Task = Task(
    kind: Kind, phase: Phase, sentAt: nat, deniedAt: nat, refreshAt: nat, renewedAt: nat, copiedAt: nat, resentAt: nat)

  datatype Event =
    | Sent(task: nat, token: string)
    | Denied(task: nat)
    | RefreshSent(task: nat, body: Option<string>, token: string)
    | Renewed(task: nat, token: string, refresh: Option<string>)

  datatype State = State(
    connected: bool,
    token: string,
    refresh: Option<string>,
    header: string,
    log: seq<Event>,
    tasks: seq<Task>)

  // What an await may deliver: a status, a body, or an exception.  Garbage is a body of another
  // content type, Broken a client error or a time-out, Unexpected any other exception.
  datatype Reply =
    | NoContent | Success | OtherSuccess | Unauthorized | TooMany | BadStatus
    | Tokens(access: string, refresh: Option<string>) | Plain | Ignored | Garbage
    | Broken | Unexpected

  // ----- steps

  // The body of the refresh call; without a usable refresh token the other endpoint is used.
  function Usable(refresh: Option<string>): Option<string> {
    if refresh.Some? && refresh.value != "" then refresh else None
  }

  // What a task does until its next await: its new local state and what it adds to the log.
  datatype Effect = Effect(task: Task, events: seq<Event>)

  function Quiet(task: Task, phase: Phase): Effect {
    Effect(task.(phase := phase), [])
  }

  predicate Raises(reply: Reply) {
    reply.Broken? || reply.Unexpected?
  }

  function Failure(reply: Reply): Outcome {
    match reply
    case Broken => NetworkError
    case Garbage => ProtocolError
    case _ => OtherError
  }

  // Where a response leads that is not a 401.
  function Answered(reply: Reply): Phase {
    match reply
    case NoContent => Closing(Nothing)
    case Success => Reading
    case OtherSuccess => Reading
    case TooMany => ReadingFailure(RateLimitError)
    case BadStatus => ReadingFailure(ProtocolError)
    case _ => Finished(Failure(reply))
  }

  predicate HasBody(reply: Reply) {
    reply.Plain? || reply.Ignored? || reply.Tokens?
  }

  function RefreshCall(s: State, t: nat): Event {
    RefreshSent(t, Usable(s.refresh), s.header)
  }

  function Next(s: State, t: nat, task: Task, reply: Reply): Effect {
    match task.phase
    case Idle =>
      if !s.connected then Quiet(task, Finished(if task.kind.Refresh? then Renewal(false) else NetworkError))
      else if task.kind.Refresh? then Effect(task.(phase := Refreshing, refreshAt := |s.log|), [RefreshCall(s, t)])
      else Effect(task.(phase := First, sentAt := |s.log|), [Sent(t, s.header)])
    case First =>
      if reply.Unauthorized? then
        Effect(task.(phase := Refreshing, deniedAt := |s.log|, refreshAt := |s.log| + 1), [Denied(t), RefreshCall(s, t)])
      else Quiet(task, Answered(reply))
    case Refreshing =>
      if Raises(reply) then Quiet(task, if task.kind.Refresh? then Finished(Renewal(false)) else Closing(AuthError))
      else Quiet(task, if reply.Success? then ReadingToken else Leaving(false))
    case ReadingToken =>
      (match reply
       case Tokens(access, refresh) =>
         Effect(task.(phase := Leaving(true), renewedAt := |s.log|), [Renewed(t, access, refresh)])
       case _ => Quiet(task, Leaving(false)))
    case Leaving(renewed) =>
      var ok := renewed && !Raises(reply);
      if task.kind.Refresh? then Quiet(task, Finished(Renewal(ok)))
      else if ok then Quiet(task.(copiedAt := |s.log|), Copied(s.header))
      else Quiet(task, Closing(AuthError))
    case Copied(copy) =>
      if Raises(reply) then Quiet(task, Finished(Failure(reply)))
      else Effect(task.(phase := Second, resentAt := |s.log|), [Sent(t, copy)])
    case Second =>
      if reply.Unauthorized? then Effect(task.(phase := Closing(AuthError)), [Denied(t)])
      else Quiet(task, Answered(reply))
    case Reading => Quiet(task, Closing(if HasBody(reply) then Answer(reply) else Failure(reply)))
    case ReadingFailure(outcome) => Quiet(task, Closing(if Raises(reply) then Failure(reply) else outcome))
    case Closing(outcome) =>
      if Raises(reply) then Quiet(task, Finished(Failure(reply)))
      else if task.kind.Register? && outcome.Answer? && outcome.body.Tokens? then
        Effect(task.(phase := Finished(outcome)), [Renewed(t, outcome.body.access, outcome.body.refresh)])
      else Quiet(task, Finished(outcome))
    case Finished(_) => Quiet(task, task.phase)
  }

  // A renewal assigns the three token fields, with no await in between.
  function Record(s: State, e: Event): State {
    var s' := s.(log := s.log + [e]);
    if e.Renewed? then s'.(token := e.token, refresh := e.refresh, header := e.token) else s'
  }

  function RecordAll(s: State, events: seq<Event>): State
    decreases events
  {
    if events == [] then s else RecordAll(Record(s, events[0]), events[1..])
  }

  function Step(s: State, t: nat, reply: Reply): State
    requires t < |s.tasks|
  {
    var effect := Next(s, t, s.tasks[t], reply);
    RecordAll(s.(tasks := s.tasks[t := effect.task]), effect.events)
  }

  // ----- what the log says about the token fields

  function LastToken(first: string, log: seq<Event>): string {
    if log == [] then first
    else if log[|log| - 1].Renewed? then log[|log| - 1].token
    else LastToken(first, log[..|log| - 1])
  }

  function LastRefresh(log: seq<Event>): Option<string> {
    if log == [] then None
    else if log[|log| - 1].Renewed? then log[|log| - 1].refresh
    else LastRefresh(log[..|log| - 1])
  }

  predicate SentBy(e: Event, t: nat) {
    e.Sent? && e.task == t
  }

  predicate RefreshSentBy(e: Event, t: nat) {
    e.RefreshSent? && e.task == t
  }

  predicate RenewedBy(e: Event, t: nat) {
    e.Renewed? && e.task == t
  }

  // ----- the invariant

  ghost predicate FieldsOk(first: string, s: State) {
    && s.header == s.token
    && s.token == LastToken(first, s.log)
    && s.refresh == LastRefresh(s.log)
  }

  ghost predicate EndpointsOk(log: seq<Event>) {
    forall i | 0 <= i < |log| && log[i].RefreshSent? :: log[i].body == Usable(LastRefresh(log[..i]))
  }

  // The task was denied after its send at sentAt, and then renewed the token.
  ghost predicate RenewedAfterDenial(log: seq<Event>, t: nat, task: Task) {
    && task.sentAt < task.deniedAt < task.renewedAt < |log|
    && log[task.deniedAt] == Denied(t)
    && RenewedBy(log[task.renewedAt], t)
  }

  ghost predicate CopyOk(first: string, log: seq<Event>, task: Task, copy: string) {
    task.renewedAt < task.copiedAt <= |log| && copy == LastToken(first, log[..task.copiedAt])
  }

  ghost predicate ResentOk(first: string, log: seq<Event>, t: nat, task: Task) {
    && RenewedAfterDenial(log, t, task)
    && task.copiedAt <= task.resentAt < |log|
    && SentBy(log[task.resentAt], t)
    && CopyOk(first, log, task, log[task.resentAt].token)
  }

  // Sends of the task occur at the remembered positions only, and only while its phase allows.
  ghost predicate SendsOk(first: string, log: seq<Event>, t: nat, task: Task) {
    var none := task.phase.Idle? || task.kind.Refresh?;
    var once := task.phase.First? || task.phase.Refreshing? || task.phase.ReadingToken? || task.phase.Leaving? || task.phase.Copied?;
    && (none ==> forall k | 0 <= k < |log| :: !SentBy(log[k], t))
    && (once ==> forall k | 0 <= k < |log| && SentBy(log[k], t) :: k == task.sentAt)
    && (forall k | 0 <= k < |log| && SentBy(log[k], t) ::
          k == task.sentAt || (k == task.resentAt && ResentOk(first, log, t, task)))
  }

  ghost predicate RefreshesOk(log: seq<Event>, t: nat, task: Task) {
    && (task.phase.Idle? || task.phase.First? ==> forall k | 0 <= k < |log| :: !RefreshSentBy(log[k], t))
    && (forall k | 0 <= k < |log| && RefreshSentBy(log[k], t) :: k == task.refreshAt)
  }

  // Phases that a refresh by itself never reaches.
  predicate AsksOnly(phase: Phase) {
    phase.First? || phase.Copied? || phase.Second? || phase.Reading? || phase.ReadingFailure? || phase.Closing?
  }

  predicate Ends(phase: Phase) {
    phase.Closing? || phase.Finished?
  }

  ghost predicate PhaseOk(first: string, log: seq<Event>, t: nat, task: Task) {
    var asks := !task.kind.Refresh?;
    && (AsksOnly(task.phase) ==> asks)
    && (task.phase.ReadingFailure? ==> task.phase.outcome.RateLimitError? || task.phase.outcome.ProtocolError?)
    && (task.phase.First? ==> task.sentAt < |log|)
    && (asks && (task.phase.Refreshing? || task.phase.ReadingToken?) ==>
          task.sentAt < task.deniedAt < |log| && log[task.deniedAt] == Denied(t))
    && (asks && task.phase.Leaving? ==> task.sentAt < task.deniedAt < |log| && log[task.deniedAt] == Denied(t))
    && (asks && task.phase.Leaving? && task.phase.renewed ==> RenewedAfterDenial(log, t, task))
    && (task.phase.Second? ==> RenewedAfterDenial(log, t, task))
    && (Ends(task.phase) && task.phase.outcome.AuthError? ==>
          asks && task.deniedAt < |log| && log[task.deniedAt] == Denied(t))
    && (Ends(task.phase) && task.phase.outcome.Renewal? ==> !asks)
    && (task.phase == Finished(Renewal(true)) ==> task.renewedAt < |log| && RenewedBy(log[task.renewedAt], t))
    && (!asks && task.phase == Leaving(true) ==> task.renewedAt < |log| && RenewedBy(log[task.renewedAt], t))
    && (task.phase.Copied? ==> RenewedAfterDenial(log, t, task) && CopyOk(first, log, task, task.phase.copy))
  }

  ghost predicate TaskOk(first: string, log: seq<Event>, t: nat, task: Task) {
    PhaseOk(first, log, t, task) && SendsOk(first, log, t, task) && RefreshesOk(log, t, task)
  }

  ghost predicate Inv(first: string, s: State) {
    && FieldsOk(first, s)
    && EndpointsOk(s.log)
    && forall t | 0 <= t < |s.tasks| :: TaskOk(first, s.log, t, s.tasks[t])
  }

  ghost predicate Init(first: string, s: State) {
    && s.token == first && s.header == first && s.refresh == None && s.log == []
    && forall t | 0 <= t < |s.tasks| :: s.tasks[t].phase == Idle
  }

  lemma InitInv(first: string, s: State)
    requires Init(first, s)
    ensures Inv(first, s)
  {
  }

  // ----- appending to the log

  lemma LastAppend(first: string, log: seq<Event>, e: Event)
    ensures LastToken(first, log + [e]) == if e.Renewed? then e.token else LastToken(first, log)
    ensures LastRefresh(log + [e]) == if e.Renewed? then e.refresh else LastRefresh(log)
  {
    assert (log + [e])[..|log|] == log;
  }

  lemma EndpointsAppend(log: seq<Event>, e: Event)
    requires EndpointsOk(log) && (e.RefreshSent? ==> e.body == Usable(LastRefresh(log)))
    ensures EndpointsOk(log + [e])
  {
    var r := log + [e];
    forall i | 0 <= i < |r| && r[i].RefreshSent?
      ensures r[i].body == Usable(LastRefresh(r[..i]))
    {
      assert r[..i] == log[..i];
      assert log[..|log|] == log;
    }
  }

  lemma CopyAppend(first: string, log: seq<Event>, e: Event, task: Task, copy: string)
    requires CopyOk(first, log, task, copy)
    ensures CopyOk(first, log + [e], task, copy)
  {
    assert (log + [e])[..task.copiedAt] == log[..task.copiedAt];
  }

  // An entry of another task, or one that is neither a send nor a refresh, disturbs no task.
  lemma TaskAppend(first: string, log: seq<Event>, e: Event, t: nat, task: Task)
    requires TaskOk(first, log, t, task) && !SentBy(e, t) && !RefreshSentBy(e, t)
    ensures TaskOk(first, log + [e], t, task)
  {
    var r := log + [e];
    assert forall k | 0 <= k < |log| :: r[k] == log[k];
    if task.phase.Copied? {
      CopyAppend(first, log, e, task, task.phase.copy);
    }
    assert PhaseOk(first, r, t, task);
    if ResentOk(first, log, t, task) {
      CopyAppend(first, log, e, task, log[task.resentAt].token);
    }
  }

  lemma {:induction false} TaskAppendAll(first: string, log: seq<Event>, events: seq<Event>, t: nat, task: Task)
    requires TaskOk(first, log, t, task)
    requires forall e | e in events :: !SentBy(e, t) && !RefreshSentBy(e, t)
    ensures TaskOk(first, log + events, t, task)
    decreases events
  {
    hide TaskOk;
    if events == [] {
      assert log + events == log;
    } else {
      TaskAppend(first, log, events[0], t, task);
      TaskAppendAll(first, log + [events[0]], events[1..], t, task);
      assert log + [events[0]] + events[1..] == log + events;
    }
  }

  // ----- one step

  // All entries of a step are the mover's own, and a refresh names the token stored at that time.
  lemma NextEvents(s: State, t: nat, task: Task, reply: Reply)
    ensures forall e: Event | e in Next(s, t, task, reply).events ::
              e.task == t && (e.RefreshSent? ==> e.body == Usable(s.refresh))
    ensures forall e: Event | e in Next(s, t, task, reply).events && e.Renewed? :: |Next(s, t, task, reply).events| == 1
  {
  }

  lemma {:induction false} RecordAllShape(s: State, events: seq<Event>)
    ensures var s' := RecordAll(s, events);
            s'.log == s.log + events && s'.tasks == s.tasks && s'.connected == s.connected
    decreases events
  {
    if events != [] {
      RecordAllShape(Record(s, events[0]), events[1..]);
      assert s.log + [events[0]] + events[1..] == s.log + events;
    }
  }

  lemma {:induction false} RecordPlain(s: State, events: seq<Event>)
    requires forall e: Event | e in events :: !e.Renewed?
    ensures RecordAll(s, events) == s.(log := s.log + events)
    decreases events
  {
    if events == [] {
      assert s.log + [] == s.log;
    } else {
      RecordPlain(Record(s, events[0]), events[1..]);
      assert s.log + [events[0]] + events[1..] == s.log + events;
    }
  }

  lemma RecordOne(s: State, e: Event)
    ensures RecordAll(s, [e]) == Record(s, e)
  {
    assert [e][1..] == [];
  }

  // One step, spelled out.
  lemma StepMeaning(s: State, t: nat, reply: Reply)
    requires t < |s.tasks|
    ensures var effect := Next(s, t, s.tasks[t], reply);
            var renewal := effect.events != [] && effect.events[0].Renewed?;
            Step(s, t, reply) == State(
              s.connected,
              if renewal then effect.events[0].token else s.token,
              if renewal then effect.events[0].refresh else s.refresh,
              if renewal then effect.events[0].token else s.header,
              s.log + effect.events,
              s.tasks[t := effect.task])
  {
    hide Next;
    var effect := Next(s, t, s.tasks[t], reply);
    var s' := s.(tasks := s.tasks[t := effect.task]);
    NextEvents(s, t, s.tasks[t], reply);
    if effect.events != [] && effect.events[0].Renewed? {
      assert effect.events[0] in effect.events;
      assert effect.events == [effect.events[0]];
      RecordOne(s', effect.events[0]);
    } else {
      NextPlain(s, t, s.tasks[t], reply);
      RecordPlain(s', effect.events);
    }
  }

  lemma NextPlain(s: State, t: nat, task: Task, reply: Reply)
    requires var events := Next(s, t, task, reply).events; events == [] || !events[0].Renewed?
    ensures forall e: Event | e in Next(s, t, task, reply).events :: !e.Renewed?
  {
  }

  lemma {:induction false} RecordAllFields(first: string, s: State, events: seq<Event>)
    requires FieldsOk(first, s) && EndpointsOk(s.log)
    requires forall e: Event | e in events :: e.RefreshSent? ==> e.body == Usable(s.refresh)
    requires forall e: Event | e in events && e.Renewed? :: |events| == 1
    ensures FieldsOk(first, RecordAll(s, events)) && EndpointsOk(RecordAll(s, events).log)
    decreases events
  {
    if events != [] {
      hide EndpointsOk;
      var e := events[0];
      assert e in events && forall d | d in events[1..] :: d in events;
      LastAppend(first, s.log, e);
      EndpointsAppend(s.log, e);
      RecordAllFields(first, Record(s, e), events[1..]);
    }
  }

  lemma StepFields(first: string, s: State, t: nat, reply: Reply)
    requires Inv(first, s) && t < |s.tasks|
    ensures FieldsOk(first, Step(s, t, reply)) && EndpointsOk(Step(s, t, reply).log)
  {
    hide TaskOk, EndpointsOk, Next, RecordAll;
    var effect := Next(s, t, s.tasks[t], reply);
    NextEvents(s, t, s.tasks[t], reply);
    RecordAllFields(first, s.(tasks := s.tasks[t := effect.task]), effect.events);
  }

  lemma StepOthers(first: string, s: State, t: nat, reply: Reply, u: nat)
    requires Inv(first, s) && t < |s.tasks| && u < |s.tasks| && u != t
    ensures var s' := Step(s, t, reply); u < |s'.tasks| && TaskOk(first, s'.log, u, s'.tasks[u])
  {
    hide TaskOk, FieldsOk, EndpointsOk, Next, RecordAll;
    var effect := Next(s, t, s.tasks[t], reply);
    NextEvents(s, t, s.tasks[t], reply);
    RecordAllShape(s.(tasks := s.tasks[t := effect.task]), effect.events);
    TaskAppendAll(first, s.log, effect.events, u, s.tasks[u]);
  }

  predicate EndFollows(kind: Kind, phase: Phase, end: Phase)
    requires Ends(end)
  {
    && (end.outcome.AuthError? ==>
          !kind.Refresh? && (phase.Refreshing? || phase.Leaving? || phase.Second? || phase == Closing(AuthError)))
    && (end.outcome.Renewal? ==> kind.Refresh? && (end.outcome.ok ==> phase == Leaving(true)))
    && (end.Closing? ==> !kind.Refresh?)
  }

  // A phase that asserts no more than the present one.
  predicate Follows(kind: Kind, phase: Phase, next: Phase) {
    || next == phase
    || (Ends(next) && EndFollows(kind, phase, next))
    || (next.Reading? && !kind.Refresh?)
    || (next.ReadingFailure? && !kind.Refresh? && (next.outcome.RateLimitError? || next.outcome.ProtocolError?))
    || (next.ReadingToken? && phase.Refreshing?)
    || (next == Leaving(false) && (phase.Refreshing? || phase.ReadingToken?))
  }

  lemma FollowsOk(first: string, log: seq<Event>, t: nat, task: Task, next: Phase)
    requires TaskOk(first, log, t, task) && Follows(task.kind, task.phase, next)
    ensures TaskOk(first, log, t, task.(phase := next))
  {
    hide LastToken;
    assert ResentOk(first, log, t, task) ==> ResentOk(first, log, t, task.(phase := next));
  }

  lemma FirstSendOk(first: string, log: seq<Event>, t: nat, task: Task, token: string)
    requires TaskOk(first, log, t, task) && task.phase.Idle? && !task.kind.Refresh?
    ensures TaskOk(first, log + [Sent(t, token)], t, task.(phase := First, sentAt := |log|))
  {
    hide ResentOk;
    assert forall k | 0 <= k < |log| :: (log + [Sent(t, token)])[k] == log[k];
  }

  lemma OwnRefreshOk(first: string, log: seq<Event>, t: nat, task: Task, e: Event)
    requires TaskOk(first, log, t, task) && task.phase.Idle? && task.kind.Refresh? && RefreshSentBy(e, t)
    ensures TaskOk(first, log + [e], t, task.(phase := Refreshing, refreshAt := |log|))
  {
    hide ResentOk;
    assert forall k | 0 <= k < |log| :: (log + [e])[k] == log[k];
  }

  lemma DeniedOk(first: string, log: seq<Event>, t: nat, task: Task, e: Event)
    requires TaskOk(first, log, t, task) && task.phase.First? && RefreshSentBy(e, t)
    ensures TaskOk(first, log + [Denied(t), e], t, task.(phase := Refreshing, deniedAt := |log|, refreshAt := |log| + 1))
  {
    hide ResentOk;
    assert forall k | 0 <= k < |log| :: (log + [Denied(t), e])[k] == log[k];
  }

  lemma RenewedOk(first: string, log: seq<Event>, t: nat, task: Task, e: Event)
    requires TaskOk(first, log, t, task) && task.phase.ReadingToken? && RenewedBy(e, t)
    ensures TaskOk(first, log + [e], t, task.(phase := Leaving(true), renewedAt := |log|))
  {
    hide ResentOk;
    assert forall k | 0 <= k < |log| :: (log + [e])[k] == log[k];
  }

  lemma CopiedOk(first: string, log: seq<Event>, t: nat, task: Task)
    requires TaskOk(first, log, t, task) && task.phase == Leaving(true) && !task.kind.Refresh?
    ensures TaskOk(first, log, t, task.(phase := Copied(LastToken(first, log)), copiedAt := |log|))
  {
    hide ResentOk, LastToken;
    assert log[..|log|] == log;
  }

  lemma SecondSendOk(first: string, log: seq<Event>, t: nat, task: Task)
    requires TaskOk(first, log, t, task) && task.phase.Copied?
    ensures TaskOk(first, log + [Sent(t, task.phase.copy)], t, task.(phase := Second, resentAt := |log|))
  {
    hide LastToken;
    var e := Sent(t, task.phase.copy);
    var next := task.(phase := Second, resentAt := |log|);
    assert forall k | 0 <= k < |log| :: (log + [e])[k] == log[k];
    CopyAppend(first, log, e, task, task.phase.copy);
    assert CopyOk(first, log + [e], next, e.token);
    assert ResentOk(first, log + [e], t, next);
  }

  // The mover's entries and its new phase fit together.
  lemma MoverOk(first: string, s: State, t: nat, task: Task, reply: Reply)
    requires TaskOk(first, s.log, t, task) && FieldsOk(first, s)
    ensures TaskOk(first, s.log + Next(s, t, task, reply).events, t, Next(s, t, task, reply).task)
  {
    hide TaskOk;
    var effect := Next(s, t, task, reply);
    var next := effect.task.phase;
    assert s.log + [] == s.log;
    KindOfPhase(first, s.log, t, task);
    if Follows(task.kind, task.phase, next) && effect.task == task.(phase := next) {
      assert forall e: Event | e in effect.events :: !SentBy(e, t) && !RefreshSentBy(e, t);
      TaskAppendAll(first, s.log, effect.events, t, task);
      FollowsOk(first, s.log + effect.events, t, task, next);
    } else {
      match task.phase
      case Idle =>
        if task.kind.Refresh? {
          OwnRefreshOk(first, s.log, t, task, RefreshCall(s, t));
        } else {
          FirstSendOk(first, s.log, t, task, s.header);
        }
      case First => DeniedOk(first, s.log, t, task, RefreshCall(s, t));
      case ReadingToken => RenewedOk(first, s.log, t, task, effect.events[0]);
      case Leaving(renewed) => CopiedOk(first, s.log, t, task);
      case Copied(copy) => SecondSendOk(first, s.log, t, task);
    }
  }

  lemma KindOfPhase(first: string, log: seq<Event>, t: nat, task: Task)
    requires TaskOk(first, log, t, task)
    ensures AsksOnly(task.phase) ==> !task.kind.Refresh?
    ensures Ends(task.phase) && task.phase.outcome.Renewal? ==> task.kind.Refresh?
    ensures task.phase.ReadingFailure? ==> !task.phase.outcome.AuthError? && !task.phase.outcome.Renewal?
  {
  }

  lemma StepMover(first: string, s: State, t: nat, reply: Reply)
    requires Inv(first, s) && t < |s.tasks|
    ensures var s' := Step(s, t, reply); t < |s'.tasks| && TaskOk(first, s'.log, t, s'.tasks[t])
  {
    hide TaskOk, FieldsOk, EndpointsOk, Next, RecordAll;
    var effect := Next(s, t, s.tasks[t], reply);
    RecordAllShape(s.(tasks := s.tasks[t := effect.task]), effect.events);
    MoverOk(first, s, t, s.tasks[t], reply);
  }

  lemma StepKeepsTasks(s: State, t: nat, reply: Reply)
    requires t < |s.tasks|
    ensures |Step(s, t, reply).tasks| == |s.tasks|
  {
    var effect := Next(s, t, s.tasks[t], reply);
    RecordAllShape(s.(tasks := s.tasks[t := effect.task]), effect.events);
  }

  // Every step of every task keeps the invariant.
  lemma StepInv(first: string, s: State, t: nat, reply: Reply)
    requires Inv(first, s) && t < |s.tasks|
    ensures Inv(first, Step(s, t, reply))
  {
    hide TaskOk, FieldsOk, EndpointsOk, Step;
    var s' := Step(s, t, reply);
    StepKeepsTasks(s, t, reply);
    StepFields(first, s, t, reply);
    forall u | 0 <= u < |s'.tasks|
      ensures TaskOk(first, s'.log, u, s'.tasks[u])
    {
      if u == t {
        StepMover(first, s, t, reply);
      } else {
        StepOthers(first, s, t, reply, u);
      }
    }
  }

  // ----- one task alone

  // The state after task t has taken one step for each reply, nobody else moving.
  function Solo(s: State, t: nat, replies: seq<Reply>): (r: State)
    requires t < |s.tasks|
    ensures |r.tasks| == |s.tasks|
    decreases replies
  {
    if replies == [] then s
    else
      var last := |replies| - 1;
      var before := Solo(s, t, replies[..last]);
      StepKeepsTasks(before, t, replies[last]);
      Step(before, t, replies[last])
  }

  lemma SoloStep(s: State, t: nat, replies: seq<Reply>, reply: Reply)
    requires t < |s.tasks|
    ensures Solo(s, t, replies + [reply]) == Step(Solo(s, t, replies), t, reply)
  {
    assert (replies + [reply])[..|replies|] == replies;
  }

  // ----- runs

  datatype Move = Move(task: nat, reply: Reply)

  ghost predicate Moved(s: State, s': State, m: Move) {
    m.task < |s.tasks| && s' == Step(s, m.task, m.reply)
  }

  ghost predicate Run(first: string, states: seq<State>, moves: seq<Move>) {
    && |states| == |moves| + 1
    && Init(first, states[0])
    && forall i | 0 <= i < |moves| :: Moved(states[i], states[i + 1], moves[i])
  }

  lemma {:induction false} RunInv(first: string, states: seq<State>, moves: seq<Move>, i: nat)
    requires Run(first, states, moves) && i < |states|
    ensures Inv(first, states[i])
    decreases i
  {
    hide Inv, Step;
    if i == 0 {
      InitInv(first, states[0]);
    } else {
      RunInv(first, states, moves, i - 1);
      assert Moved(states[i - 1], states[i], moves[i - 1]);
      StepInv(first, states[i - 1], moves[i - 1].task, moves[i - 1].reply);
    }
  }

  // The header always carries the current token, which is that of the latest renewal.
  lemma HeaderIsToken(first: string, states: seq<State>, moves: seq<Move>, i: nat)
    requires Run(first, states, moves) && i < |states|
    ensures states[i].header == states[i].token == LastToken(first, states[i].log)
  {
    RunInv(first, states, moves, i);
  }

  // Main result: the refresh endpoint is used exactly when the latest renewal came with a non-empty
  // refresh token, which is then what is sent.
  lemma EndpointChoice(first: string, states: seq<State>, moves: seq<Move>, i: nat, k: nat)
    requires Run(first, states, moves) && i < |states| && k < |states[i].log| && states[i].log[k].RefreshSent?
    ensures var latest := LastRefresh(states[i].log[..k]);
            states[i].log[k].body == if latest == None || latest == Some("") then None else latest
  {
    RunInv(first, states, moves, i);
  }

  // Main result: a task sends at most twice and refreshes at most once.
  lemma AtMostTwoSends(first: string, states: seq<State>, moves: seq<Move>, i: nat, t: nat)
    requires Run(first, states, moves) && i < |states| && t < |states[i].tasks|
    ensures forall a, b, c | 0 <= a < b < c < |states[i].log| ::
              !(SentBy(states[i].log[a], t) && SentBy(states[i].log[b], t) && SentBy(states[i].log[c], t))
    ensures forall a, b | 0 <= a < b < |states[i].log| ::
              !(RefreshSentBy(states[i].log[a], t) && RefreshSentBy(states[i].log[b], t))
  {
    RunInv(first, states, moves, i);
    assert TaskOk(first, states[i].log, t, states[i].tasks[t]);
  }

  // Main result: a request ends with an authorisation error only after a denial of its own, and a
  // refresh reports success only after it has renewed the token.
  lemma OutcomesAreEarned(first: string, states: seq<State>, moves: seq<Move>, i: nat, t: nat)
    requires Run(first, states, moves) && i < |states| && t < |states[i].tasks|
    ensures states[i].tasks[t].phase == Finished(AuthError) ==>
              exists k | 0 <= k < |states[i].log| :: states[i].log[k] == Denied(t)
    ensures states[i].tasks[t].phase == Finished(Renewal(true)) ==>
              exists k | 0 <= k < |states[i].log| :: RenewedBy(states[i].log[k], t)
  {
    RunInv(first, states, moves, i);
    assert TaskOk(first, states[i].log, t, states[i].tasks[t]);
  }

  // Main result: a second send comes after a denial and a successful renewal by the same task, and
  // carries a token that was current at some moment after that renewal.
  lemma SecondSendIsJustified(first: string, states: seq<State>, moves: seq<Move>, i: nat, t: nat, a: nat, b: nat)
    returns (denied: nat, renewed: nat, copied: nat)
    requires Run(first, states, moves) && i < |states| && t < |states[i].tasks|
    requires a < b < |states[i].log| && SentBy(states[i].log[a], t) && SentBy(states[i].log[b], t)
    ensures a < denied < renewed < copied <= b
    ensures states[i].log[denied] == Denied(t) && RenewedBy(states[i].log[renewed], t)
    ensures states[i].log[b].token == LastToken(first, states[i].log[..copied])
  {
    RunInv(first, states, moves, i);
    var log, task := states[i].log, states[i].tasks[t];
    assert TaskOk(first, log, t, task);
    assert a == task.sentAt || (a == task.resentAt && ResentOk(first, log, t, task));
    assert b == task.sentAt || (b == task.resentAt && ResentOk(first, log, t, task));
    denied, renewed, copied := task.deniedAt, task.renewedAt, task.copiedAt;
  }
}

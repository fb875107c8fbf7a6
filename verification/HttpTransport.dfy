/**
 The HTTP worker transport as one coroutine runs it: token refresh, requests with one retry after a
 401, registration, and delivery of results with exponential backoff.

 The network is an arbitrary function from positions to replies; every await takes the next one.
 Each method is proved against the step machine of module TokenProtocol: what it does is the run of
 one task of that machine on the replies it consumed.
 */
module HttpTransport {
  import opened Wrappers
  import opened TokenProtocol

  type Network = nat -> Reply

  function Taken(network: Network, from: nat, to: nat): seq<Reply>
    requires from <= to
  {
    seq(to - from, i requires 0 <= i < to - from => network(from + i))
  }

  // The machine, started on its task 0 and stepped on the replies from `from` up to `to`.  Its first
  // step starts the task and takes no reply.
  ghost function At(start: State, network: Network, from: nat, to: nat): (s: State)
    requires from <= to && |start.tasks| == 1
    ensures |s.tasks| == 1
  {
    Solo(start, 0, [Plain] + Taken(network, from, to))
  }

  lemma AtStart(start: State, network: Network, from: nat)
    requires |start.tasks| == 1
    ensures At(start, network, from, from) == Step(start, 0, Plain)
  {
    assert [Plain] + Taken(network, from, from) == [Plain];
    SoloStep(start, 0, [], Plain);
    assert [] + [Plain] == [Plain];
  }

  lemma AtNext(start: State, network: Network, from: nat, to: nat)
    requires from <= to && |start.tasks| == 1
    ensures At(start, network, from, to + 1) == Step(At(start, network, from, to), 0, network(to))
  {
    var done := [Plain] + Taken(network, from, to);
    assert [Plain] + Taken(network, from, to + 1) == done + [network(to)];
    SoloStep(start, 0, done, network(to));
  }

  // One step of a machine with a single task, spelled out.
  lemma StepSingle(s: State, reply: Reply)
    requires |s.tasks| == 1
    ensures var effect := Next(s, 0, s.tasks[0], reply);
            var renewal := effect.events != [] && effect.events[0].Renewed?;
            Step(s, 0, reply) == State(
              s.connected,
              if renewal then effect.events[0].token else s.token,
              if renewal then effect.events[0].refresh else s.refresh,
              if renewal then effect.events[0].token else s.header,
              s.log + effect.events,
              [effect.task])
  {
    hide Next, Step;
    StepMeaning(s, 0, reply);
    assert s.tasks[0 := Next(s, 0, s.tasks[0], reply).task] == [Next(s, 0, s.tasks[0], reply).task];
  }

  // ----- backoff

  // The sleep after failure number i, counted from zero.
  function Pause(wait: real, i: nat): real {
    wait * Pow2(i) as real
  }

  // The first m sleeps of a delivery.
  function Backoff(wait: real, m: nat): (r: seq<real>)
    ensures |r| == m && forall i | 0 <= i < m :: r[i] == Pause(wait, i)
  {
    if m == 0 then [] else Backoff(wait, m - 1) + [Pause(wait, m - 1)]
  }

  function Sum(xs: seq<real>): real {
    if xs == [] then 0.0 else Sum(xs[..|xs| - 1]) + xs[|xs| - 1]
  }

  // Main result: the total time slept is wait * (2^m - 1).
  lemma {:induction false} TotalSleep(wait: real, m: nat)
    ensures Sum(Backoff(wait, m)) == wait * (Pow2(m) as real - 1.0)
  {
    if m > 0 {
      hide *;
      TotalSleep(wait, m - 1);
      SumBackoff(wait, m);
      PauseGrows(wait, m - 1);
    } else {
      assert Backoff(wait, 0) == [];
    }
  }

  lemma SumBackoff(wait: real, m: nat)
    requires m > 0
    ensures Sum(Backoff(wait, m)) == Sum(Backoff(wait, m - 1)) + Pause(wait, m - 1)
  {
    hide Pause, Pow2;
    assert Backoff(wait, m)[..m - 1] == Backoff(wait, m - 1);
  }

  lemma PauseGrows(wait: real, i: nat)
    ensures wait * (Pow2(i + 1) as real - 1.0) == wait * (Pow2(i) as real - 1.0) + Pause(wait, i)
  {
    var p := Pow2(i) as real;
    assert Pow2(i + 1) as real == p + p;
    assert wait * (p + p - 1.0) == wait * (p - 1.0) + wait * p;
  }

  // ----- counting sends

  function Sends(log: seq<Event>): nat {
    if log == [] then 0 else Sends(log[..|log| - 1]) + if log[|log| - 1].Sent? then 1 else 0
  }

  lemma SendsAppend(log: seq<Event>, e: Event)
    ensures Sends(log + [e]) == Sends(log) + if e.Sent? then 1 else 0
  {
    assert (log + [e])[..|log|] == log;
  }

  // ----- delivery of a result

  datatype Delivery = Returned(ok: bool) | Raised(error: Outcome)

  predicate Good(o: Outcome) {
    o.Nothing? || o.Answer?
  }

  // What the caller sees, given the attempts that were made.
  function Verdict(attempts: seq<Outcome>): Delivery {
    if attempts == [] then Returned(false)
    else
      var last := attempts[|attempts| - 1];
      if Good(last) then Returned(last != Answer(Ignored)) else Raised(last)
  }

  // Attempts are made until one ends other than with a network error, or the budget is used up.
  ghost predicate AttemptsOk(retries: int, attempts: seq<Outcome>) {
    && |attempts| <= (if retries < 0 then 0 else retries)
    && (forall i | 0 <= i < |attempts| - 1 :: attempts[i] == NetworkError)
    && (|attempts| < retries ==> attempts != [] && attempts[|attempts| - 1] != NetworkError)
  }

  // ----- one request after the other

  const IDLE_REQUEST := Task(Request, Idle, 0, 0, 0, 0, 0, 0)

  ghost predicate Rising(marks: seq<nat>) {
    marks != [] && forall i | 0 <= i < |marks| - 1 :: marks[i] <= marks[i + 1]
  }

  // The state after one request for each stretch of replies between two marks.
  ghost function Series(s: State, network: Network, marks: seq<nat>): (r: State)
    requires Rising(marks) && |s.tasks| == 1
    ensures |r.tasks| == 1
  {
    var n := |marks| - 1;
    if n == 0 then s
    else
      assert marks[n - 1] <= marks[n - 1 + 1];
      At(Series(s, network, marks[..n]), network, marks[n - 1], marks[n]).(tasks := [IDLE_REQUEST])
  }

  // The outcomes are those of the machine for the successive requests.
  ghost predicate Served(s: State, network: Network, marks: seq<nat>, attempts: seq<Outcome>)
    requires |s.tasks| == 1
  {
    Rising(marks) && |marks| == |attempts| + 1 &&
    forall i | 0 <= i < |attempts| :: ServedAt(s, network, marks, i, attempts[i])
  }

  ghost predicate ServedAt(s: State, network: Network, marks: seq<nat>, i: nat, outcome: Outcome)
    requires |s.tasks| == 1 && Rising(marks) && i + 1 < |marks|
  {
    At(Series(s, network, marks[..i + 1]), network, marks[i], marks[i + 1]).tasks[0].phase == Finished(outcome)
  }

  lemma ServedAppend(s: State, network: Network, marks: seq<nat>, attempts: seq<Outcome>, mark: nat, outcome: Outcome)
    requires |s.tasks| == 1 && Served(s, network, marks, attempts) && marks[|marks| - 1] <= mark
    requires At(Series(s, network, marks), network, marks[|marks| - 1], mark).tasks[0].phase == Finished(outcome)
    ensures Served(s, network, marks + [mark], attempts + [outcome])
    ensures Series(s, network, marks + [mark]) ==
            At(Series(s, network, marks), network, marks[|marks| - 1], mark).(tasks := [IDLE_REQUEST])
  {
    hide At, Series;
    var more, outcomes := marks + [mark], attempts + [outcome];
    assert more[..|marks|] == marks;
    forall i | 0 <= i < |outcomes|
      ensures ServedAt(s, network, more, i, outcomes[i])
    {
      if i < |attempts| {
        assert ServedAt(s, network, marks, i, attempts[i]);
        assert more[..i + 1] == marks[..i + 1];
      }
    }
    SeriesAppend(s, network, marks, mark);
  }

  lemma SeriesAppend(s: State, network: Network, marks: seq<nat>, mark: nat)
    requires |s.tasks| == 1 && Rising(marks) && marks[|marks| - 1] <= mark
    ensures Rising(marks + [mark])
    ensures Series(s, network, marks + [mark]) ==
            At(Series(s, network, marks), network, marks[|marks| - 1], mark).(tasks := [IDLE_REQUEST])
  {
    hide At;
    assert (marks + [mark])[..|marks|] == marks;
  }

  // The result in terms of the attempts: the network error is raised exactly when there was a budget
  // and every attempt of it failed that way; any other error is that of the last attempt; True means
  // that the last attempt was answered, or needed no answer, and was not ignored.
  lemma VerdictMeaning(retries: int, attempts: seq<Outcome>)
    requires AttemptsOk(retries, attempts)
    ensures Verdict(attempts) == Raised(NetworkError) <==>
            retries > 0 && |attempts| == retries && forall i | 0 <= i < |attempts| :: attempts[i] == NetworkError
    ensures Verdict(attempts) == Returned(true) <==>
            attempts != [] && (attempts[|attempts| - 1] == Nothing ||
            exists body :: attempts[|attempts| - 1] == Answer(body) && body != Ignored)
    ensures Verdict(attempts) == Returned(false) <==>
            retries <= 0 || attempts[|attempts| - 1] == Answer(Ignored)
    ensures forall e :: Verdict(attempts) == Raised(e) <==>
            retries > 0 && attempts[|attempts| - 1] == e && e != Nothing && forall body :: e != Answer(body)
  {
    if attempts != [] {
      var last := |attempts| - 1;
      assert (forall i | 0 <= i < |attempts| :: attempts[i] == NetworkError) <==>
             attempts[last] == NetworkError;
    }
  }

  // ----- the transport

  class HttpTransport {
    const network: Network
    var position: nat
    var connected: bool
    var token: string
    var refreshTokenValue: Option<string>
    var workerHeader: string
    ghost var log: seq<Event>
    ghost var sleeps: seq<real>

    ghost predicate Valid()
      reads this
    {
      workerHeader == token
    }

    constructor (network: Network, token: string)
      ensures Valid() && !connected && this.token == token && refreshTokenValue == None
      ensures this.network == network && position == 0 && log == [] && sleeps == []
    {
      this.network := network;
      this.token, refreshTokenValue, workerHeader := token, None, token;
      connected, position, log, sleeps := false, 0, [], [];
    }

    // This transport with one idle task of the machine.
    ghost function View(kind: Kind): State
      reads this
    {
      State(connected, token, refreshTokenValue, workerHeader, log, [Task(kind, Idle, 0, 0, 0, 0, 0, 0)])
    }

    // The shared fields are those of the machine state.
    ghost predicate Mirrors(s: State)
      reads this
    {
      Ahead(s, [])
    }

    // The machine has already logged what is about to be logged here.
    ghost predicate Ahead(s: State, events: seq<Event>)
      reads this
    {
      s.connected == connected && s.token == token && s.refresh == refreshTokenValue &&
      s.header == workerHeader && s.log == log + events && |s.tasks| == 1
    }

    method Record(ghost e: Event)
      modifies this`log
      ensures log == old(log) + [e]
      ensures Sends(log) == Sends(old(log)) + if e.Sent? then 1 else 0
    {
      SendsAppend(log, e);
      log := log + [e];
    }

    // The three token fields change together.
    method SetTokens(access: string, refresh: Option<string>)
      modifies this`token, this`refreshTokenValue, this`workerHeader, this`log
      ensures Valid() && token == access && refreshTokenValue == refresh
      ensures log == old(log) + [Renewed(0, access, refresh)] && Sends(log) == Sends(old(log))
    {
      token := access;
      refreshTokenValue := refresh;
      workerHeader := token;
      Record(Renewed(0, access, refresh));
    }

    method Await() returns (reply: Reply)
      modifies this`position
      ensures position == old(position) + 1 && reply == network(old(position))
    {
      reply := network(position);
      position := position + 1;
    }

    // A refresh by itself.
    method RefreshToken() returns (ok: bool)
      requires Valid()
      modifies this`position, this`token, this`refreshTokenValue, this`workerHeader, this`log
      ensures Valid() && position >= old(position)
      ensures var s := At(old(View(Refresh)), network, old(position), position);
              Mirrors(s) && s.tasks[0].phase == Finished(Renewal(ok))
      ensures Sends(log) == Sends(old(log))
      // it returns True exactly when a token is received and the response is left without an error
      ensures ok <==> var n := old(position);
                      connected && network(n) == Success && network(n + 1).Tokens? &&
                      network(n + 2) != Broken && network(n + 2) != Unexpected
      ensures ok ==> var body := network(old(position) + 1); token == body.access && refreshTokenValue == body.refresh
    {
      hide At, Step, Sends, Usable;
      ghost var start := View(Refresh);
      AtStart(start, network, position);
      StepSingle(start, Plain);
      assert log + [] == log;
      if !connected {
        return false;
      }
      ok := AwaitRefresh(start, position);
    }

    // The refresh call, from its post to its return.  The task of the machine has just made the same
    // post, and is followed through the replies.
    method AwaitRefresh(ghost start: State, ghost first: nat) returns (ok: bool)
      requires Valid() && connected && |start.tasks| == 1 && first <= position
      requires Ahead(At(start, network, first, position), [RefreshSent(0, Usable(refreshTokenValue), workerHeader)])
      requires At(start, network, first, position).tasks[0].phase.Refreshing?
      modifies this`position, this`token, this`refreshTokenValue, this`workerHeader, this`log
      ensures Valid() && position > old(position)
      ensures var s := At(start, network, first, position);
              var kind := s.tasks[0].kind;
              Mirrors(s) && kind == At(start, network, first, old(position)).tasks[0].kind &&
              s.tasks[0].phase == if kind.Refresh? then Finished(Renewal(ok))
                                  else if ok then Copied(workerHeader) else Closing(AuthError)
      ensures Sends(log) == Sends(old(log))
      ensures ok <==> var n := old(position);
                      network(n) == Success && network(n + 1).Tokens? && network(n + 2) != Broken && network(n + 2) != Unexpected
      ensures ok ==> var body := network(old(position) + 1); token == body.access && refreshTokenValue == body.refresh
    {
      hide At, Step, Sends, Usable;
      ghost var s := At(start, network, first, position);
      Record(RefreshSent(0, Usable(refreshTokenValue), workerHeader));
      var renewed := false;
      AtNext(start, network, first, position);
      var resp := Await();
      StepSingle(s, resp);
      assert log + [] == log;
      if Raises(resp) {
        return false;
      }
      if resp.Success? {
        renewed := ReadToken(start, first);
      }
      ok := LeaveRefresh(renewed, start, first);
    }

    // The body of the refresh response; if it holds tokens, they are stored.
    method ReadToken(ghost start: State, ghost first: nat) returns (renewed: bool)
      requires Valid() && |start.tasks| == 1 && first <= position
      requires Mirrors(At(start, network, first, position))
      requires At(start, network, first, position).tasks[0].phase.ReadingToken?
      modifies this`position, this`token, this`refreshTokenValue, this`workerHeader, this`log
      ensures Valid() && position == old(position) + 1
      ensures var s := At(start, network, first, position);
              Mirrors(s) && s.tasks[0].kind == At(start, network, first, old(position)).tasks[0].kind &&
              s.tasks[0].phase == Leaving(renewed)
      ensures Sends(log) == Sends(old(log))
      ensures renewed == network(old(position)).Tokens?
      ensures renewed ==> var body := network(old(position)); token == body.access && refreshTokenValue == body.refresh
    {
      hide At, Step, Sends;
      ghost var s := At(start, network, first, position);
      AtNext(start, network, first, position);
      var body := Await();
      StepSingle(s, body);
      if body.Tokens? {
        SetTokens(body.access, body.refresh);
        renewed := true;
      } else {
        renewed := false;
      }
      assert log + [] == log;
    }

    // Leaving the refresh response; an error there loses the renewal for the caller.
    method LeaveRefresh(renewed: bool, ghost start: State, ghost first: nat) returns (ok: bool)
      requires Valid() && |start.tasks| == 1 && first <= position
      requires Mirrors(At(start, network, first, position))
      requires At(start, network, first, position).tasks[0].phase == Leaving(renewed)
      modifies this`position
      ensures position > old(position)
      ensures var s := At(start, network, first, position);
              var kind := s.tasks[0].kind;
              Mirrors(s) && kind == At(start, network, first, old(position)).tasks[0].kind &&
              s.tasks[0].phase == if kind.Refresh? then Finished(Renewal(ok))
                                  else if ok then Copied(workerHeader) else Closing(AuthError)
      ensures ok <==> renewed && network(old(position)) != Broken && network(old(position)) != Unexpected
    {
      hide At, Step;
      ghost var s := At(start, network, first, position);
      AtNext(start, network, first, position);
      var leaving := Await();
      StepSingle(s, leaving);
      assert log + [] == log;
      ok := renewed && !Raises(leaving);
    }

    // A request; a registration also stores the tokens its answer may carry.
    method Perform(registers: bool) returns (outcome: Outcome)
      requires Valid()
      modifies this`position, this`token, this`refreshTokenValue, this`workerHeader, this`log
      ensures Valid() && position >= old(position)
      ensures var s := At(old(View(if registers then Register else Request)), network, old(position), position);
              Mirrors(s) && s.tasks[0].phase == Finished(outcome)
      ensures Sends(log) <= Sends(old(log)) + 2
    {
      hide At, Step, Sends, Usable;
      ghost var start, first := View(if registers then Register else Request), position;
      AtStart(start, network, first);
      StepSingle(start, Plain);
      assert log + [] == log;
      if !connected {
        return NetworkError;
      }
      var headers := workerHeader;
      var round := 0;
      while round < 2
        invariant 0 <= round <= 1 && Valid() && connected && first <= position
        invariant Ahead(At(start, network, first, position), [Sent(0, headers)])
        invariant var task := At(start, network, first, position).tasks[0];
                  task.phase == (if round == 0 then First else Second) && task.kind == start.tasks[0].kind
        invariant Sends(log) == Sends(old(log)) + round
        decreases 2 - round
      {
        ghost var s := At(start, network, first, position);
        Record(Sent(0, headers));
        AtNext(start, network, first, position);
        var resp := Await();
        StepSingle(s, resp);
        assert log + [] == log;
        if resp.Unauthorized? && round == 0 {
          Record(Denied(0));
          assert log + [RefreshSent(0, Usable(refreshTokenValue), workerHeader)] ==
                 s.log + [Denied(0), RefreshSent(0, Usable(refreshTokenValue), workerHeader)];
          var renewed := Renew(registers, start, first);
          if renewed.Err? {
            return renewed.error;
          }
          headers, round := renewed.value, 1;
        } else {
          if resp.Unauthorized? {
            Record(Denied(0));
            assert log + [] == log;
          }
          outcome := Conclude(registers, resp, start, first);
          return;
        }
      }
      assert false;
    }

    // After a first denial: refresh the token, copy the headers, and leave the denied response.
    method Renew(registers: bool, ghost start: State, ghost first: nat) returns (headers: Result<string, Outcome>)
      requires Valid() && connected && |start.tasks| == 1 && first <= position
      requires Ahead(At(start, network, first, position), [RefreshSent(0, Usable(refreshTokenValue), workerHeader)])
      requires var task := At(start, network, first, position).tasks[0];
               task.phase.Refreshing? && task.kind == start.tasks[0].kind == if registers then Register else Request
      modifies this`position, this`token, this`refreshTokenValue, this`workerHeader, this`log
      ensures Valid() && position > old(position)
      ensures var s := At(start, network, first, position);
              s.tasks[0].kind == start.tasks[0].kind &&
              match headers
              case Ok(copy) => Ahead(s, [Sent(0, copy)]) && s.tasks[0].phase == Second
              case Err(end) => Mirrors(s) && s.tasks[0].phase == Finished(end)
      ensures Sends(log) == Sends(old(log))
    {
      hide At, Step, Sends, Usable;
      var renewed := AwaitRefresh(start, first);
      if !renewed {
        var end := Close(registers, AuthError, start, first);
        return Err(end);
      }
      var copy := workerHeader;
      ghost var s := At(start, network, first, position);
      AtNext(start, network, first, position);
      var leaving := Await();
      StepSingle(s, leaving);
      assert log + [] == log;
      if Raises(leaving) {
        return Err(Failure(leaving));
      }
      return Ok(copy);
    }

    // What a response comes to that is not followed by a second send: its body, where it has one,
    // is read, and the response is left.
    method Conclude(registers: bool, resp: Reply, ghost start: State, ghost first: nat) returns (outcome: Outcome)
      requires Valid() && connected && |start.tasks| == 1 && first <= position
      requires Mirrors(At(start, network, first, position))
      requires var task := At(start, network, first, position).tasks[0];
               task.kind == (if registers then Register else Request) &&
               task.phase == if resp.Unauthorized? then Closing(AuthError) else Answered(resp)
      modifies this`position, this`token, this`refreshTokenValue, this`workerHeader, this`log
      ensures Valid() && position >= old(position)
      ensures var s := At(start, network, first, position); Mirrors(s) && s.tasks[0].phase == Finished(outcome)
      ensures Sends(log) == Sends(old(log))
    {
      hide At, Step, Sends;
      match resp
      case NoContent => outcome := Close(registers, Nothing, start, first);
      case Unauthorized => outcome := Close(registers, AuthError, start, first);
      case Success => outcome := ReadBody(registers, None, start, first);
      case OtherSuccess => outcome := ReadBody(registers, None, start, first);
      case TooMany => outcome := ReadBody(registers, Some(RateLimitError), start, first);
      case BadStatus => outcome := ReadBody(registers, Some(ProtocolError), start, first);
      case _ => outcome := Failure(resp);
    }

    // The body of a good response is the answer; that of any other goes into the error message.
    method ReadBody(registers: bool, error: Option<Outcome>, ghost start: State,
        ghost first: nat) returns (outcome: Outcome)
      requires Valid() && connected && |start.tasks| == 1 && first <= position
      requires Mirrors(At(start, network, first, position))
      requires var task := At(start, network, first, position).tasks[0];
               task.kind == (if registers then Register else Request) &&
               task.phase == if error.Some? then ReadingFailure(error.value) else Reading
      modifies this`position, this`token, this`refreshTokenValue, this`workerHeader, this`log
      ensures Valid() && position >= old(position)
      ensures var s := At(start, network, first, position); Mirrors(s) && s.tasks[0].phase == Finished(outcome)
      ensures Sends(log) == Sends(old(log))
    {
      hide At, Step, Sends;
      ghost var s := At(start, network, first, position);
      AtNext(start, network, first, position);
      var body := Await();
      StepSingle(s, body);
      assert log + [] == log;
      var pending := Failure(body);
      if error.Some? {
        if !Raises(body) {
          pending := error.value;
        }
      } else if HasBody(body) {
        pending := Answer(body);
      }
      outcome := Close(registers, pending, start, first);
    }

    // Leaving the response, which may fail; then a registration stores the tokens it was given.
    method Close(registers: bool, pending: Outcome, ghost start: State, ghost first: nat) returns (outcome: Outcome)
      requires Valid() && connected && |start.tasks| == 1 && first <= position
      requires Mirrors(At(start, network, first, position))
      requires var task := At(start, network, first, position).tasks[0];
               task.phase == Closing(pending) && task.kind == if registers then Register else Request
      modifies this`position, this`token, this`refreshTokenValue, this`workerHeader, this`log
      ensures Valid() && position > old(position)
      ensures var s := At(start, network, first, position);
              Mirrors(s) && s.tasks[0].phase == Finished(outcome) &&
              s.tasks[0].kind == At(start, network, first, old(position)).tasks[0].kind
      ensures Sends(log) == Sends(old(log))
    {
      hide At, Step, Sends;
      ghost var s := At(start, network, first, position);
      AtNext(start, network, first, position);
      var leaving := Await();
      StepSingle(s, leaving);
      if Raises(leaving) {
        assert log + [] == log;
        return Failure(leaving);
      }
      if registers && pending.Answer? && pending.body.Tokens? {
        SetTokens(pending.body.access, pending.body.refresh);
      }
      assert log + [] == log;
      return pending;
    }

    // One more request after those made already.
    method Attempt(ghost start: State, ghost marks: seq<nat>, ghost attempts: seq<Outcome>) returns (outcome: Outcome)
      requires Valid() && |start.tasks| == 1 && Served(start, network, marks, attempts)
      requires marks[|attempts|] == position && View(Request) == Series(start, network, marks)
      modifies this`position, this`token, this`refreshTokenValue, this`workerHeader, this`log
      ensures Valid() && Served(start, network, marks + [position], attempts + [outcome])
      ensures View(Request) == Series(start, network, marks + [position])
      ensures Sends(log) <= Sends(old(log)) + 2
    {
      hide At, Sends, Series, ServedAt;
      outcome := Perform(false);
      assert log + [] == log;
      ServedAppend(start, network, marks, attempts, position, outcome);
    }

    // The attempts are successive requests of the machine on the replies between the marks.
    method SendResult(retries: int, wait: real)
      returns (delivery: Delivery, ghost attempts: seq<Outcome>, ghost marks: seq<nat>)
      requires Valid()
      modifies this
      ensures Valid()
      ensures Served(old(View(Request)), network, marks, attempts)
      ensures marks[0] == old(position) && marks[|attempts|] == position
      ensures View(Request) == Series(old(View(Request)), network, marks)
      ensures AttemptsOk(retries, attempts)
      ensures delivery == Verdict(attempts)
      ensures sleeps == old(sleeps) + Backoff(wait, if attempts == [] then 0 else |attempts| - 1)
      ensures Sends(log) <= Sends(old(log)) + 2 * |attempts|
    {
      hide At, Sends, Pause, Series, ServedAt;
      attempts, marks := [], [position];
      assert sleeps + [] == sleeps;
      ghost var start := View(Request);
      SeriesNone(start, network, position);
      var lastError: Option<Outcome> := None;
      var i := 0;
      while i < retries
        invariant 0 <= i && (i == 0 || i <= retries) && Valid()
        invariant Served(start, network, marks, attempts)
        invariant marks[0] == old(position) && marks[|attempts|] == position
        invariant View(Request) == Series(start, network, marks)
        invariant |attempts| == i && forall k | 0 <= k < i :: attempts[k] == NetworkError
        invariant lastError == if i == 0 then None else Some(NetworkError)
        invariant sleeps == old(sleeps) + Backoff(wait, if i < retries || i == 0 then i else i - 1)
        invariant Sends(log) <= Sends(old(log)) + 2 * i
        decreases retries - i
      {
        var outcome := Attempt(start, marks, attempts);
        attempts, marks := attempts + [outcome], marks + [position];
        if Good(outcome) {
          return Returned(outcome != Answer(Ignored)), attempts, marks;
        }
        if outcome != NetworkError {
          return Raised(outcome), attempts, marks;
        }
        lastError := Some(outcome);
        if i < retries - 1 {
          assert old(sleeps) + Backoff(wait, i) + [Pause(wait, i)] == old(sleeps) + Backoff(wait, i + 1);
          sleeps := sleeps + [Pause(wait, i)];
        }
        i := i + 1;
      }
      if lastError.Some? {
        assert attempts[|attempts| - 1] == NetworkError;
        return Raised(lastError.value), attempts, marks;
      }
      return Returned(false), attempts, marks;
    }
  }

  lemma SeriesNone(s: State, network: Network, mark: nat)
    requires |s.tasks| == 1
    ensures Rising([mark]) && Series(s, network, [mark]) == s && Served(s, network, [mark], [])
  {
  }
}

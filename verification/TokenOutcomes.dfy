/**
 What the replies of the network determine when one task runs undisturbed: from any state, how a
 refresh and a request end, what they send, and what becomes of the token fields.

 A response is followed by its body, where that is read, and by leaving it; in place of each there
 may be an exception.
 */
module TokenOutcomes {
  import opened Wrappers
  import opened TokenProtocol

  // ----- a few steps

  lemma OneStep(s: State, t: nat, a: Reply)
    requires t < |s.tasks|
    ensures Solo(s, t, [a]) == Step(s, t, a)
  {
    SoloStep(s, t, [], a);
    assert [] + [a] == [a];
  }

  lemma {:induction false} SoloConcat(s: State, t: nat, a: seq<Reply>, b: seq<Reply>)
    requires t < |s.tasks|
    ensures Solo(s, t, a + b) == Solo(Solo(s, t, a), t, b)
    decreases b
  {
    if b == [] {
      assert a + b == a;
    } else {
      var last := |b| - 1;
      assert a + b == a + b[..last] + [b[last]] && b == b[..last] + [b[last]];
      SoloConcat(s, t, a, b[..last]);
      SoloStep(s, t, a + b[..last], b[last]);
      SoloStep(Solo(s, t, a), t, b[..last], b[last]);
    }
  }

  lemma Steps(s: State, t: nat, a: Reply, more: seq<Reply>)
    requires t < |s.tasks|
    ensures t < |Step(s, t, a).tasks| && Solo(s, t, [a] + more) == Solo(Step(s, t, a), t, more)
  {
    hide Step;
    StepKeepsTasks(s, t, a);
    OneStep(s, t, a);
    SoloConcat(s, t, [a], more);
  }

  // ----- the refresh call

  // A 200 with tokens renews: the token fields are those of the answer, and a request goes on with
  // a copy of the new header.
  lemma RefreshSucceeds(s: State, t: nat, access: string, refresh: Option<string>, last: Reply)
    requires t < |s.tasks| && s.tasks[t].phase == Refreshing && last != Broken && last != Unexpected
    ensures var r := Solo(s, t, [Success, Tokens(access, refresh), last]);
            && r.token == access && r.refresh == refresh && r.header == access
            && r.log == s.log + [Renewed(t, access, refresh)]
            && r.tasks[t].phase == (if s.tasks[t].kind == Refresh then Finished(Renewal(true)) else Copied(access))
            && r.tasks[t].kind == s.tasks[t].kind && r.connected == s.connected
  {
    hide Step, RecordAll, Solo;
    Steps(s, t, Success, [Tokens(access, refresh), last]);
    StepMeaning(s, t, Success);
    var s1 := Step(s, t, Success);
    Steps(s1, t, Tokens(access, refresh), [last]);
    StepMeaning(s1, t, Tokens(access, refresh));
    var s2 := Step(s1, t, Tokens(access, refresh));
    OneStep(s2, t, last);
    StepMeaning(s2, t, last);
    assert [Success] + [Tokens(access, refresh), last] == [Success, Tokens(access, refresh), last];
    assert [Tokens(access, refresh)] + [last] == [Tokens(access, refresh), last];
    assert s.log + [] == s.log && s2.log + [] == s2.log;
  }

  // Any other status, an exception in its place, or a 200 without tokens does not renew.
  lemma RefreshFails(s: State, t: nat, status: Reply, body: Reply, last: Reply)
    requires t < |s.tasks| && s.tasks[t].phase == Refreshing
    ensures var end := if s.tasks[t].kind == Refresh then Finished(Renewal(false)) else Closing(AuthError);
            var replies := if status == Broken || status == Unexpected then [status]
                           else if status == Success then [status, body, last] else [status, last];
            (status == Success ==> !body.Tokens?) ==>
              Solo(s, t, replies) == s.(tasks := s.tasks[t := s.tasks[t].(phase := end)])
  {
    hide Step, RecordAll, Solo;
    Steps(s, t, status, [body, last]);
    Steps(s, t, status, [last]);
    OneStep(s, t, status);
    StepMeaning(s, t, status);
    var s1 := Step(s, t, status);
    Steps(s1, t, body, [last]);
    OneStep(s1, t, last);
    StepMeaning(s1, t, last);
    StepMeaning(s1, t, body);
    var s2 := Step(s1, t, body);
    OneStep(s2, t, last);
    StepMeaning(s2, t, last);
    assert [status] + [body, last] == [status, body, last] && [status] + [last] == [status, last];
    assert [body] + [last] == [body, last];
    assert s.log + [] == s.log && s1.log + [] == s1.log && s2.log + [] == s2.log;
  }

  // The tokens are stored even when leaving the response fails, but the caller does not learn it.
  lemma RefreshIsLost(s: State, t: nat, access: string, refresh: Option<string>, last: Reply)
    requires t < |s.tasks| && s.tasks[t].phase == Refreshing && (last == Broken || last == Unexpected)
    ensures var r := Solo(s, t, [Success, Tokens(access, refresh), last]);
            && r.token == access && r.refresh == refresh && r.header == access
            && r.tasks[t].phase == if s.tasks[t].kind == Refresh then Finished(Renewal(false)) else Closing(AuthError)
  {
    hide Step, RecordAll, Solo;
    Steps(s, t, Success, [Tokens(access, refresh), last]);
    StepMeaning(s, t, Success);
    var s1 := Step(s, t, Success);
    Steps(s1, t, Tokens(access, refresh), [last]);
    StepMeaning(s1, t, Tokens(access, refresh));
    var s2 := Step(s1, t, Tokens(access, refresh));
    OneStep(s2, t, last);
    StepMeaning(s2, t, last);
    assert [Success] + [Tokens(access, refresh), last] == [Success, Tokens(access, refresh), last];
    assert [Tokens(access, refresh)] + [last] == [Tokens(access, refresh), last];
  }

  // ----- sending

  // A task starts with one post, a request with the current header and a refresh at the endpoint
  // that the stored refresh token calls for; without a connection it ends at once.
  lemma Starts(s: State, t: nat, any: Reply)
    requires t < |s.tasks| && s.tasks[t].phase == Idle
    ensures var r, kind := Solo(s, t, [any]), s.tasks[t].kind;
            && r.token == s.token && r.refresh == s.refresh && r.header == s.header && r.tasks[t].kind == kind
            && r.connected == s.connected
            && r.tasks[t].phase == (if !s.connected then Finished(if kind == Refresh then Renewal(false) else NetworkError)
                                    else if kind == Refresh then Refreshing else First)
            && r.log == s.log + (if !s.connected then []
                                 else if kind != Refresh then [Sent(t, s.header)]
                                 else if s.refresh == None || s.refresh == Some("") then [RefreshSent(t, None, s.header)]
                                 else [RefreshSent(t, s.refresh, s.header)])
  {
    hide Step, RecordAll, Solo;
    OneStep(s, t, any);
    StepMeaning(s, t, any);
  }

  // A first 401 is followed by the refresh call.
  lemma Refreshes(s: State, t: nat)
    requires t < |s.tasks| && s.tasks[t].phase == First
    ensures var r := Solo(s, t, [Unauthorized]);
            && r.token == s.token && r.refresh == s.refresh && r.header == s.header
            && r.tasks[t].phase == Refreshing && r.tasks[t].kind == s.tasks[t].kind && r.connected == s.connected
            && r.log == s.log + [Denied(t),
                 if s.refresh == None || s.refresh == Some("") then RefreshSent(t, None, s.header)
                 else RefreshSent(t, s.refresh, s.header)]
  {
    hide Step, RecordAll, Solo;
    OneStep(s, t, Unauthorized);
    StepMeaning(s, t, Unauthorized);
  }

  // Once the denied response is left, the request is sent again with the copied header.
  lemma SendsAgain(s: State, t: nat, copy: string, last: Reply)
    requires t < |s.tasks| && s.tasks[t].phase == Copied(copy)
    ensures var r := Solo(s, t, [last]);
            && r.token == s.token && r.refresh == s.refresh && r.header == s.header
            && r.tasks[t].kind == s.tasks[t].kind && r.connected == s.connected
            && r.tasks[t].phase == (if last == Broken then Finished(NetworkError)
                                    else if last == Unexpected then Finished(OtherError) else Second)
            && r.log == s.log + (if last == Broken || last == Unexpected then [] else [Sent(t, copy)])
  {
    hide Step, RecordAll, Solo;
    OneStep(s, t, last);
    StepMeaning(s, t, last);
  }

  // ----- responses

  // What an outcome becomes on leaving the response.
  lemma Closes(s: State, t: nat, outcome: Outcome, last: Reply)
    requires t < |s.tasks| && s.tasks[t].phase == Closing(outcome)
    ensures var r := Solo(s, t, [last]);
            var stores := s.tasks[t].kind == Register && outcome.Answer? && outcome.body.Tokens? && last != Broken && last != Unexpected;
            && r.tasks[t].phase == Finished(if last == Broken then NetworkError
                                            else if last == Unexpected then OtherError else outcome)
            && r.token == (if stores then outcome.body.access else s.token)
            && r.header == (if stores then outcome.body.access else s.header)
            && r.refresh == (if stores then outcome.body.refresh else s.refresh)
            && r.log == s.log + if stores then [Renewed(t, outcome.body.access, outcome.body.refresh)] else []
  {
    hide Step, RecordAll, Solo;
    OneStep(s, t, last);
    StepMeaning(s, t, last);
  }

  // The response to the first or the second send, a 401 to the first one apart: those without a body,
  lemma RespondsAlone(s: State, t: nat, status: Reply)
    requires t < |s.tasks| && (s.tasks[t].phase == First || s.tasks[t].phase == Second)
    ensures status == NoContent ==> Settles(s, t, [status], Closing(Nothing))
    ensures status == Unauthorized && s.tasks[t].phase == Second ==>
              Solo(s, t, [status]).tasks[t].phase == Closing(AuthError) && Solo(s, t, [status]).log == s.log + [Denied(t)]
    ensures status == Broken ==> Settles(s, t, [status], Finished(NetworkError))
    ensures status == Unexpected ==> Settles(s, t, [status], Finished(OtherError))
  {
    hide Step, RecordAll, Solo;
    OneStep(s, t, status);
    StepMeaning(s, t, status);
    assert s.log + [] == s.log;
  }

  // and those whose body is read.
  lemma Responds(s: State, t: nat, status: Reply, body: Reply)
    requires t < |s.tasks| && (s.tasks[t].phase == First || s.tasks[t].phase == Second)
    ensures status == Success || status == OtherSuccess ==>
              Settles(s, t, [status, body], Closing(match body
                                                    case Plain => Answer(Plain)
                                                    case Ignored => Answer(Ignored)
                                                    case Tokens(a, r) => Answer(Tokens(a, r))
                                                    case Garbage => ProtocolError
                                                    case Broken => NetworkError
                                                    case _ => OtherError))
    ensures status == TooMany || status == BadStatus ==>
              Settles(s, t, [status, body], Closing(if body == Broken then NetworkError
                                                    else if body == Unexpected then OtherError
                                                    else if status == TooMany then RateLimitError else ProtocolError))
  {
    hide Step, RecordAll, Solo;
    if status == Success || status == OtherSuccess || status == TooMany || status == BadStatus {
      Steps(s, t, status, [body]);
      StepMeaning(s, t, status);
      var s1 := Step(s, t, status);
      OneStep(s1, t, body);
      StepMeaning(s1, t, body);
      assert [status] + [body] == [status, body];
      assert s.log + [] == s.log && s1.log + [] == s1.log;
    }
  }

  // Only the phase of the task changes.
  ghost predicate Settles(s: State, t: nat, replies: seq<Reply>, phase: Phase)
    requires t < |s.tasks|
  {
    Solo(s, t, replies) == s.(tasks := s.tasks[t := s.tasks[t].(phase := phase)])
  }

  // ----- whole requests

  // How a task ends once a response has arrived, a 401 to the first send apart: an error on leaving
  // the response takes the place of everything else.
  lemma Concludes(s: State, t: nat, status: Reply, body: Reply, last: Reply)
    requires t < |s.tasks| && (s.tasks[t].phase == First || s.tasks[t].phase == Second)
    requires s.tasks[t].phase == First ==> status != Unauthorized
    requires status.NoContent? || status.Success? || status.OtherSuccess? || status.Unauthorized? || status.TooMany? ||
             status.BadStatus?
    ensures var r := Solo(s, t, if status == NoContent || status == Unauthorized then [status, last] else [status, body, last]);
            r.tasks[t].phase == Finished(
              if last == Broken then NetworkError
              else if last == Unexpected then OtherError
              else if status == NoContent then Nothing
              else if status == Unauthorized then AuthError
              else if body == Broken then NetworkError
              else if body == Unexpected then OtherError
              else if status == TooMany then RateLimitError
              else if status == BadStatus then ProtocolError
              else if body == Garbage then ProtocolError
              else if body == Plain || body == Ignored || body.Tokens? then Answer(body)
              else OtherError)
  {
    hide Solo;
    RespondsAlone(s, t, status);
    Responds(s, t, status, body);
    var replies := if status == NoContent || status == Unauthorized then [status] else [status, body];
    var s1 := Solo(s, t, replies);
    SoloConcat(s, t, replies, [last]);
    assert replies + [last] ==
           if status == NoContent || status == Unauthorized then [status, last] else [status, body, last];
    Closes(s1, t, s1.tasks[t].phase.outcome, last);
  }

  // From the first denial to the second send.
  lemma Renews(s: State, t: nat, access: string, refresh: Option<string>, left: Reply, closed: Reply)
    requires t < |s.tasks| && s.tasks[t].phase == First && s.tasks[t].kind != Refresh
    requires left != Broken && left != Unexpected && closed != Broken && closed != Unexpected
    ensures var r := Solo(s, t, [Unauthorized, Success, Tokens(access, refresh), left, closed]);
            && r.tasks[t].phase == Second && r.tasks[t].kind == s.tasks[t].kind
            && r.token == access && r.refresh == refresh && r.header == access && r.connected == s.connected
            && r.log == s.log + [Denied(t),
                                 if s.refresh == None || s.refresh == Some("") then RefreshSent(t, None, s.header)
                                 else RefreshSent(t, s.refresh, s.header),
                                 Renewed(t, access, refresh), Sent(t, access)]
  {
    hide Solo;
    Refreshes(s, t);
    var s1 := Solo(s, t, [Unauthorized]);
    RefreshSucceeds(s1, t, access, refresh, left);
    var renewal := [Success, Tokens(access, refresh), left];
    var s2 := Solo(s1, t, renewal);
    SendsAgain(s2, t, access, closed);
    SoloConcat(s1, t, renewal, [closed]);
    SoloConcat(s, t, [Unauthorized], renewal + [closed]);
    assert [Unauthorized] + (renewal + [closed]) == [Unauthorized, Success, Tokens(access, refresh), left, closed];
  }

  // The answer to a request that has been sent.
  lemma Answers(s: State, t: nat, body: Reply, last: Reply)
    requires t < |s.tasks| && (s.tasks[t].phase == First || s.tasks[t].phase == Second) && s.tasks[t].kind == Request
    requires (body == Plain || body == Ignored || body.Tokens?) && last != Broken && last != Unexpected
    ensures var r := Solo(s, t, [Success, body, last]);
            && r.tasks[t].phase == Finished(Answer(body)) && r.log == s.log
            && r.token == s.token && r.refresh == s.refresh && r.header == s.header
  {
    hide Solo;
    Responds(s, t, Success, body);
    var s1 := Solo(s, t, [Success, body]);
    Closes(s1, t, Answer(body), last);
    SoloConcat(s, t, [Success, body], [last]);
    assert [Success, body] + [last] == [Success, body, last] && s1.log + [] == s1.log;
  }

  // A request that is answered at once: one send with the current header.
  lemma AnsweredRequest(s: State, t: nat, any: Reply, body: Reply, last: Reply)
    requires t < |s.tasks| && s.connected && s.tasks[t].phase == Idle && s.tasks[t].kind == Request
    requires (body == Plain || body == Ignored || body.Tokens?) && last != Broken && last != Unexpected
    ensures var r := Solo(s, t, [any, Success, body, last]);
            && r.tasks[t].phase == Finished(Answer(body)) && r.log == s.log + [Sent(t, s.header)]
            && r.token == s.token && r.refresh == s.refresh && r.header == s.header
  {
    hide Solo;
    Starts(s, t, any);
    Answers(Solo(s, t, [any]), t, body, last);
    SoloConcat(s, t, [any], [Success, body, last]);
    assert [any] + [Success, body, last] == [any, Success, body, last];
  }

  // Main result: a request whose token has expired.  Denied once, it renews the token, is sent again
  // with the new one, and returns the answer to the second send.
  lemma RenewedRequest(s: State, t: nat, any: Reply, access: string, refresh: Option<string>, left: Reply,
      closed: Reply, body: Reply, last: Reply)
    requires t < |s.tasks| && s.connected && s.tasks[t].phase == Idle && s.tasks[t].kind == Request
    requires left != Broken && left != Unexpected && closed != Broken && closed != Unexpected
    requires (body == Plain || body == Ignored || body.Tokens?) && last != Broken && last != Unexpected
    ensures var r := Solo(s, t, [any, Unauthorized, Success, Tokens(access, refresh), left, closed, Success, body, last]);
            && r.tasks[t].phase == Finished(Answer(body))
            && r.token == access && r.refresh == refresh && r.header == access
            && r.log == s.log + [Sent(t, s.header), Denied(t),
                                 if s.refresh == None || s.refresh == Some("") then RefreshSent(t, None, s.header)
                                 else RefreshSent(t, s.refresh, s.header),
                                 Renewed(t, access, refresh), Sent(t, access)]
  {
    hide Solo;
    Starts(s, t, any);
    var s1 := Solo(s, t, [any]);
    Renews(s1, t, access, refresh, left, closed);
    var renewal := [Unauthorized, Success, Tokens(access, refresh), left, closed];
    var s2 := Solo(s1, t, renewal);
    Answers(s2, t, body, last);
    SoloConcat(s1, t, renewal, [Success, body, last]);
    SoloConcat(s, t, [any], renewal + [Success, body, last]);
    assert [any] + (renewal + [Success, body, last]) ==
           [any, Unauthorized, Success, Tokens(access, refresh), left, closed, Success, body, last];
  }

  // A request that is denied and whose refresh is refused ends with an authorisation error, after
  // one send and with the token it had.
  lemma RefusedRequest(s: State, t: nat, any: Reply, status: Reply, left: Reply, closed: Reply)
    requires t < |s.tasks| && s.connected && s.tasks[t].phase == Idle && s.tasks[t].kind == Request
    requires status != Success && status != Broken && status != Unexpected && closed != Broken && closed != Unexpected
    ensures var r := Solo(s, t, [any, Unauthorized, status, left, closed]);
            && r.tasks[t].phase == Finished(AuthError)
            && r.token == s.token && r.refresh == s.refresh && r.header == s.header
            && r.log == s.log + [Sent(t, s.header), Denied(t),
                                 if s.refresh == None || s.refresh == Some("") then RefreshSent(t, None, s.header)
                                 else RefreshSent(t, s.refresh, s.header)]
  {
    hide Solo;
    Starts(s, t, any);
    var s1 := Solo(s, t, [any]);
    Refreshes(s1, t);
    var s2 := Solo(s1, t, [Unauthorized]);
    RefreshFails(s2, t, status, left, left);
    var s3 := Solo(s2, t, [status, left]);
    Closes(s3, t, AuthError, closed);
    SoloConcat(s2, t, [status, left], [closed]);
    SoloConcat(s1, t, [Unauthorized], [status, left] + [closed]);
    SoloConcat(s, t, [any], [Unauthorized] + ([status, left] + [closed]));
    assert [any] + ([Unauthorized] + ([status, left] + [closed])) == [any, Unauthorized, status, left, closed];
    assert s3.log + [] == s3.log;
  }
}

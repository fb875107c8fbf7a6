/**
 The WebSocket listener: connect, yield the commands that arrive, and reconnect with exponential
 backoff.

 What happens is a script: the connections in turn, each refused or opened with the messages it
 delivers until it ends.  Whether the transport is closing is read again at every test, and each
 reading may come out either way.
 */
module CommandStream {
  import opened Wrappers

  datatype Message<C> =
    | Text(command: Option<C>)   // None when the text cannot be parsed
    | Stop                       // close or error
    | Other

  datatype Connection<C> = Refused | Opened(messages: seq<Message<C>>)

  // The readings of the closing flag, in the outer loop and between messages, and the connections,
  // in order.
  datatype Trail = Test(closing: bool) | Check(closing: bool) | Connect

  const MAX_DELAY := 60

  // ----- the specification

  // The commands of one connection: the parsable texts before the first close or error.
  function Heard<C>(messages: seq<Message<C>>): seq<C> {
    if messages == [] then []
    else match messages[0]
      case Text(Some(c)) => [c] + Heard(messages[1..])
      case Stop => []
      case _ => Heard(messages[1..])
  }

  // The commands are the parsed texts at the positions `at`, and no text before n that can be parsed
  // is left out.
  ghost predicate Picks<C>(messages: seq<Message<C>>, n: nat, heard: seq<C>, at: seq<nat>) {
    && n <= |messages| && |at| == |heard|
    && (forall j, k | 0 <= j < k < |at| :: at[j] < at[k])
    && (forall k | 0 <= k < |at| :: at[k] < n && messages[at[k]] == Text(Some(heard[k])))
    && (forall i | 0 <= i < n && messages[i].Text? && messages[i].command.Some? :: i in at)
  }

  lemma PicksNext<C>(messages: seq<Message<C>>, n: nat, heard: seq<C>, at: seq<nat>)
    requires Picks(messages, n, heard, at) && n < |messages|
    ensures match messages[n]
            case Text(Some(c)) => Picks(messages, n + 1, heard + [c], at + [n])
            case _ => Picks(messages, n + 1, heard, at)
  {
    assert forall i | i in at :: i in at + [n];
    assert (at + [n])[|at|] == n;
  }

  // What is heard are the parsed texts at exactly the positions n steps on, in order, where n is the
  // position of the first close or error, or the end.
  lemma HeardMeaning<C>(messages: seq<Message<C>>) returns (n: nat, at: seq<nat>)
    ensures n <= |messages| && Stop !in messages[..n] && (n == |messages| || messages[n] == Stop)
    ensures |at| == |Heard(messages)| && forall j, k | 0 <= j < k < |at| :: at[j] < at[k]
    ensures forall k | 0 <= k < |at| :: at[k] < n && messages[at[k]] == Text(Some(Heard(messages)[k]))
    ensures forall i | 0 <= i < n && messages[i].Text? && messages[i].command.Some? :: i in at
  {
    n, at := 0, [];
    var heard: seq<C> := [];
    assert messages[0..] == messages;
    while n < |messages| && messages[n] != Stop
      invariant n <= |messages| && Stop !in messages[..n]
      invariant Picks(messages, n, heard, at)
      invariant Heard(messages) == heard + Heard(messages[n..])
    {
      hide Picks;
      assert messages[n..][0] == messages[n] && messages[n..][1..] == messages[n + 1..];
      assert messages[..n + 1] == messages[..n] + [messages[n]];
      PicksNext(messages, n, heard, at);
      if messages[n].Text? && messages[n].command.Some? {
        assert heard + ([messages[n].command.value] + Heard(messages[n + 1..])) ==
               heard + [messages[n].command.value] + Heard(messages[n + 1..]);
        heard, at := heard + [messages[n].command.value], at + [n];
      }
      n := n + 1;
    }
    assert heard + [] == heard;
  }

  // The listener's commands are those of its connections, one after the other.
  lemma CommandsMeaning<C>(conns: seq<Connection<C>>, messages: seq<Message<C>>)
    ensures Commands<C>([]) == [] && Commands(conns + [Refused]) == Commands(conns)
    ensures Commands(conns + [Opened(messages)]) == Commands(conns) + Heard(messages)
  {
    assert (conns + [Refused])[..|conns|] == conns && (conns + [Opened(messages)])[..|conns|] == conns;
  }

  function Commands<C>(conns: seq<Connection<C>>): seq<C> {
    if conns == [] then []
    else
      var last := conns[|conns| - 1];
      Commands(conns[..|conns| - 1]) + if last.Opened? then Heard(last.messages) else []
  }

  function Delay(n: nat): nat {
    if Pow2(n) < MAX_DELAY then Pow2(n) else MAX_DELAY
  }

  // How many attempts were made since the latest successful one, or since the first.
  function SinceSuccess<C>(conns: seq<Connection<C>>): nat
    requires conns != []
  {
    if conns[|conns| - 1].Opened? || |conns| == 1 then 0 else 1 + SinceSuccess(conns[..|conns| - 1])
  }

  // The count goes back to that attempt and to no later one that succeeded.
  lemma {:induction false} SinceSuccessMeaning<C>(conns: seq<Connection<C>>)
    requires conns != []
    ensures var n := |conns| - 1 - SinceSuccess(conns);
            && 0 <= n < |conns|
            && (n == 0 || conns[n].Opened?)
            && forall i | n < i < |conns| :: conns[i].Refused?
  {
    if !(conns[|conns| - 1].Opened? || |conns| == 1) {
      SinceSuccessMeaning(conns[..|conns| - 1]);
    }
  }

  lemma DelayDoubles(n: nat)
    ensures Delay(0) == 1 && Delay(n + 1) == if 2 * Delay(n) < 60 then 2 * Delay(n) else 60
  {
  }

  function Connects(trail: seq<Trail>): nat {
    if trail == [] then 0
    else Connects(trail[..|trail| - 1]) + if trail[|trail| - 1].Connect? then 1 else 0
  }

  function Readings(trail: seq<Trail>): seq<bool> {
    if trail == [] then []
    else
      var last := trail[|trail| - 1];
      Readings(trail[..|trail| - 1]) + if last.Connect? then [] else [last.closing]
  }

  // The readings on the trail are the first n readings of the flag.
  ghost predicate Honest(trail: seq<Trail>, closing: nat -> bool, n: nat) {
    Readings(trail) == seq(n, k requires 0 <= k < n => closing(k))
  }

  // No reading in the outer loop but possibly the last entry was true.
  ghost predicate QuietAfterClosing(trail: seq<Trail>) {
    forall i | 0 <= i < |trail| - 1 :: trail[i] != Test(true)
  }

  ghost predicate NotClosed(trail: seq<Trail>) {
    forall i | 0 <= i < |trail| :: trail[i] != Test(true)
  }

  predicate Reads(t: Trail, closing: bool) {
    !t.Connect? && t.closing == closing
  }

  ghost predicate NothingRead(trail: seq<Trail>) {
    forall i | 0 <= i < |trail| :: !Reads(trail[i], true)
  }

  // After any reading that was true there is no connection any more.
  ghost predicate NoConnectAfterClosing(trail: seq<Trail>) {
    forall i, k | 0 <= i < k < |trail| && Reads(trail[i], true) :: !trail[k].Connect?
  }

  lemma TrailAppend(trail: seq<Trail>, t: Trail)
    ensures Connects(trail + [t]) == Connects(trail) + if t.Connect? then 1 else 0
    ensures Readings(trail + [t]) == Readings(trail) + if t.Connect? then [] else [t.closing]
    ensures NotClosed(trail) ==> QuietAfterClosing(trail + [t])
    ensures NotClosed(trail) && t != Test(true) ==> NotClosed(trail + [t])
    ensures NothingRead(trail) && !Reads(t, true) ==> NothingRead(trail + [t])
    ensures NoConnectAfterClosing(trail) && !t.Connect? ==> NoConnectAfterClosing(trail + [t])
    ensures NothingRead(trail) ==> NoConnectAfterClosing(trail)
  {
    assert (trail + [t])[..|trail|] == trail;
  }

  lemma HonestAppend(trail: seq<Trail>, t: Trail, closing: nat -> bool, n: nat)
    requires Honest(trail, closing, n) && (t.Connect? || t.closing == closing(n))
    ensures Honest(trail + [t], closing, if t.Connect? then n else n + 1)
  {
    TrailAppend(trail, t);
  }

  // The checks made while reading messages.
  function Checks(closing: nat -> bool, from: nat, end: nat): seq<Trail>
    requires from <= end
  {
    seq(end - from, k requires 0 <= k < end - from => Check(closing(from + k)))
  }

  lemma {:induction false} ChecksAppend(trail: seq<Trail>, closing: nat -> bool, from: nat, end: nat)
    requires from <= end && Honest(trail, closing, from) && NotClosed(trail)
    ensures var r := trail + Checks(closing, from, end);
            && Honest(r, closing, end) && Connects(r) == Connects(trail) && NotClosed(r)
            && (NothingRead(trail) ==> NoConnectAfterClosing(r))
            && (NothingRead(trail) && (forall k: nat | from <= k < end :: !closing(k)) ==> NothingRead(r))
    decreases end
  {
    hide Honest, Connects, NotClosed, NothingRead, NoConnectAfterClosing, QuietAfterClosing, Readings;
    var t := Check(false);
    TrailAppend(trail, t);
    if from == end {
      assert trail + Checks(closing, from, end) == trail;
    } else {
      var r := trail + Checks(closing, from, end - 1);
      t := Check(closing(end - 1));
      ChecksAppend(trail, closing, from, end - 1);
      assert trail + Checks(closing, from, end) == r + [t];
      HonestAppend(r, t, closing, end - 1);
      TrailAppend(r, t);
    }
  }

  // Each sleep is determined by the attempts since the latest success.
  ghost predicate SleepsOk<C>(conns: seq<Connection<C>>, sleeps: seq<nat>) {
    |sleeps| <= |conns| && forall i | 0 <= i < |sleeps| :: sleeps[i] == Delay(SinceSuccess(conns[..i + 1]))
  }

  lemma SleepAppend<C>(conns: seq<Connection<C>>, sleeps: seq<nat>, d: nat)
    requires SleepsOk(conns, sleeps) && |sleeps| < |conns| && d == Delay(SinceSuccess(conns[..|sleeps| + 1]))
    ensures SleepsOk(conns, sleeps + [d])
  {
  }

  // Once closing has been asked for it stays so.
  ghost predicate Settled(closing: nat -> bool) {
    forall k: nat | closing(k) :: closing(k + 1)
  }

  ghost predicate NeverClosing(closing: nat -> bool) {
    forall k: nat :: !closing(k)
  }

  // ----- the loop

  method ListenForCommands<C>(conns: seq<Connection<C>>, closing: nat -> bool, reconnect: bool)
    returns (yielded: seq<C>, sleeps: seq<nat>, attempts: nat, trail: seq<Trail>)
    ensures attempts <= |conns|
    // without a close request every connection is used and every command is yielded, in order
    ensures NeverClosing(closing) ==> attempts == if reconnect || conns == [] then |conns| else 1
    ensures NeverClosing(closing) ==> yielded == Commands(conns[..attempts])
    // a close request only cuts the commands short
    ensures Settled(closing) ==> yielded <= Commands(conns[..attempts])
    ensures SleepsOk(conns, sleeps)
    ensures |sleeps| <= attempts <= |sleeps| + 1 && (!reconnect ==> sleeps == [])
    ensures NeverClosing(closing) && reconnect ==> |sleeps| == attempts
    // the trail holds every attempt and every reading
    ensures Connects(trail) == attempts && Honest(trail, closing, |Readings(trail)|)
    // once closing has been read in the outer loop, nothing happens any more
    ensures QuietAfterClosing(trail)
    // once closing has been read anywhere, and stays so, no connection is opened any more
    ensures Settled(closing) ==> NoConnectAfterClosing(trail)
  {
    hide Delay, Heard, SinceSuccess, Commands, Connects, NeverClosing, Settled, SleepsOk;
    hide Readings, Honest, NotClosed, QuietAfterClosing, NothingRead, NoConnectAfterClosing, Checks;
    yielded, sleeps, attempts, trail := [], [], 0, [];
    Start(conns, closing);
    var retryDelay := 1;
    var tests := 0;
    while attempts < |conns|
      invariant attempts <= |conns| && |sleeps| == attempts && (!reconnect ==> attempts == 0)
      invariant retryDelay == if attempts == 0 then 1 else Delay(SinceSuccess(conns[..attempts]) + 1)
      invariant Settled(closing) ==> yielded == Commands(conns[..attempts])
      invariant SleepsOk(conns, sleeps)
      invariant NotClosed(trail) && Connects(trail) == attempts && Honest(trail, closing, tests)
      invariant Settled(closing) ==> NothingRead(trail)
    {
      ClosingReads(closing, tests);
      var seen := closing(tests);
      TrailAppend(trail, Test(seen));
      HonestAppend(trail, Test(seen), closing, tests);
      tests := tests + 1;
      trail := trail + [Test(seen)];
      if seen {
        HonestLength(trail, closing, tests);
        return;
      }
      ghost var before := attempts;
      var conn := conns[attempts];
      attempts := attempts + 1;
      TrailAppend(trail, Connect);
      HonestAppend(trail, Connect, closing, tests);
      trail := trail + [Connect];
      ghost var reached := tests;
      if conn.Opened? {
        retryDelay := 1;
        var heard, checks;
        ghost var at, read;
        heard, tests, checks, at, read := ReadMessages(conn.messages, closing, tests);
        PrefixAppend(yielded, heard, Heard(conn.messages));
        yielded := yielded + heard;
        ChecksAppend(trail, closing, reached, tests);
        trail := trail + checks;
      } else {
        TrailAppend(trail, Test(false));
      }
      AttemptMeaning(conns, before);
      ClosingReads(closing, tests);
      if tests > 0 {
        ClosingReads(closing, tests - 1);
      }
      seen := closing(tests);
      TrailAppend(trail, Test(seen));
      HonestAppend(trail, Test(seen), closing, tests);
      tests := tests + 1;
      trail := trail + [Test(seen)];
      if seen || !reconnect {
        HonestLength(trail, closing, tests);
        return;
      }
      SleepAppend(conns, sleeps, retryDelay);
      sleeps := sleeps + [retryDelay];
      DelayDoubles(SinceSuccess(conns[..attempts]));
      retryDelay := if retryDelay * 2 < MAX_DELAY then retryDelay * 2 else MAX_DELAY;
    }
    NotClosedIsQuiet(trail);
    TrailAppend(trail, Test(false));
    HonestLength(trail, closing, tests);
    ClosingReads(closing, 0);
  }

  lemma HonestLength(trail: seq<Trail>, closing: nat -> bool, n: nat)
    requires Honest(trail, closing, n)
    ensures |Readings(trail)| == n
  {
  }

  lemma Start<C>(conns: seq<Connection<C>>, closing: nat -> bool)
    ensures Commands(conns[..0]) == [] && SleepsOk(conns, [])
    ensures NotClosed([]) && NothingRead([]) && Connects([]) == 0 && Honest([], closing, 0)
  {
  }

  lemma NotClosedIsQuiet(trail: seq<Trail>)
    requires NotClosed(trail)
    ensures QuietAfterClosing(trail)
  {
  }

  lemma PrefixAppend<C>(a: seq<C>, b: seq<C>, c: seq<C>)
    requires b <= c
    ensures a + b <= a + c
  {
    assert forall i | 0 <= i < |a + b| :: (a + b)[i] == (a + c)[i];
  }

  lemma ClosingReads(closing: nat -> bool, k: nat)
    ensures NeverClosing(closing) ==> Settled(closing) && !closing(k)
    ensures Settled(closing) && closing(k) ==> closing(k + 1)
  {
  }

  // The effect of one more attempt on the commands and on the count since the latest success.
  lemma AttemptMeaning<C>(conns: seq<Connection<C>>, i: nat)
    requires i < |conns|
    ensures Commands(conns[..i + 1]) ==
            Commands(conns[..i]) + if conns[i].Opened? then Heard(conns[i].messages) else []
    ensures SinceSuccess(conns[..i + 1]) ==
            if conns[i].Opened? || i == 0 then 0 else 1 + SinceSuccess(conns[..i])
    ensures Delay(0) == 1
  {
    assert conns[..i + 1][..i] == conns[..i];
  }

  // The messages of one connection, up to a close, an error, or a reading of the closing flag.
  method ReadMessages<C>(messages: seq<Message<C>>, closing: nat -> bool, from: nat)
    returns (heard: seq<C>, tests: nat, checks: seq<Trail>, ghost at: seq<nat>, ghost read: nat)
    ensures heard <= Heard(messages) && tests >= from
    ensures heard == Heard(messages) || (tests > from && closing(tests - 1))
    ensures checks == Checks(closing, from, tests)
    ensures forall k | from <= k < tests - 1 :: !closing(k)
    // all messages are read, up to a close, an error, or a closing request
    ensures read <= |messages|
    ensures read == |messages| || (tests > from && closing(tests - 1)) || (read > 0 && messages[read - 1] == Stop)
    ensures Stop !in messages[..if read > 0 then read - 1 else 0]
    ensures tests - from == if Stop in messages[..read] then read - 1 else read
    // the commands are those at the positions of the texts read that can be parsed, in order
    ensures |at| == |heard| && forall j, k | 0 <= j < k < |at| :: at[j] < at[k]
    ensures forall k | 0 <= k < |at| :: at[k] < read && messages[at[k]] == Text(Some(heard[k]))
    ensures forall i | 0 <= i < read && messages[i].Text? && messages[i].command.Some? :: i in at
  {
    hide Picks, Heard, Checks;
    heard, tests, checks, at, read := [], from, [], [], 0;
    assert messages[0..] == messages;
    ReadNone(messages, closing, from);
    for i := 0 to |messages|
      invariant Heard(messages) == heard + Heard(messages[i..]) && tests == from + i
      invariant checks == Checks(closing, from, tests)
      invariant forall k | from <= k < tests :: !closing(k)
      invariant read == i && Stop !in messages[..i]
      invariant Picks(messages, i, heard, at)
    {
      ReadNext(messages, i);
      ChecksNext(closing, from, tests);
      PicksNext(messages, i, heard, at);
      read := i + 1;
      match messages[i] {
        case Text(Some(c)) =>
          assert heard + ([c] + Heard(messages[i + 1..])) == heard + [c] + Heard(messages[i + 1..]);
          heard, at := heard + [c], at + [i];
        case Text(None) =>
        case Stop =>
          assert heard + [] == heard;
          PicksMeaning(messages, read, heard, at);
          return;
        case Other =>
      }
      var seen := closing(tests);
      checks := checks + [Check(seen)];
      tests := tests + 1;
      if seen {
        PicksMeaning(messages, read, heard, at);
        return;
      }
    }
    assert messages[..|messages|] == messages && heard + [] == heard;
    PicksMeaning(messages, read, heard, at);
  }

  lemma ReadNone<C>(messages: seq<Message<C>>, closing: nat -> bool, from: nat)
    ensures Picks(messages, 0, [], []) && Checks(closing, from, from) == []
    ensures Heard(messages[|messages|..]) == []
  {
  }

  lemma ChecksNext(closing: nat -> bool, from: nat, n: nat)
    requires from <= n
    ensures Checks(closing, from, n + 1) == Checks(closing, from, n) + [Check(closing(n))]
  {
  }

  lemma ReadNext<C>(messages: seq<Message<C>>, i: nat)
    requires i < |messages|
    ensures messages[..i + 1] == messages[..i] + [messages[i]]
    ensures Heard(messages[i..]) ==
            match messages[i]
            case Text(Some(c)) => [c] + Heard(messages[i + 1..])
            case Stop => []
            case _ => Heard(messages[i + 1..])
  {
    assert messages[i..][0] == messages[i] && messages[i..][1..] == messages[i + 1..];
  }

  lemma PicksMeaning<C>(messages: seq<Message<C>>, n: nat, heard: seq<C>, at: seq<nat>)
    requires Picks(messages, n, heard, at)
    ensures |at| == |heard| && forall j, k | 0 <= j < k < |at| :: at[j] < at[k]
    ensures forall k | 0 <= k < |at| :: at[k] < n && n <= |messages| && messages[at[k]] == Text(Some(heard[k]))
    ensures forall i | 0 <= i < n && n <= |messages| && messages[i].Text? && messages[i].command.Some? :: i in at
  {
  }
}

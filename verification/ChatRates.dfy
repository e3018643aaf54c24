/** What chat acceptance keeps over whole runs: the sliding-window bounds, the meaning of the
    reported wait, and replay. */
module ChatRates {
  import opened Base
  import opened ChatLimits

  datatype Event = Sending(send: Send) | Delivered(index: nat)

  function Step(messages: seq<Message>, e: Event): seq<Message> {
    match e
    case Sending(s) => Accept(messages, s).0
    case Delivered(i) => MarkLive(messages, i)
  }

  /** One clock, read twice: the decision's instant is not after the stamp, and under the sender's
      lock the stamp is not before the sender's earlier stamps. */
  ghost predicate ClockRuns(messages: seq<Message>, e: Event) {
    e.Sending? ==>
      && e.send.now <= e.send.stamp
      && (forall i :: 0 <= i < |messages| && messages[i].sender == e.send.sender ==> messages[i].acceptedAt <= e.send.stamp)
  }

  ghost predicate AllRun(messages: seq<Message>, es: seq<Event>)
    decreases |es|
  {
    es == [] || (ClockRuns(messages, es[0]) && AllRun(Step(messages, es[0]), es[1..]))
  }

  ghost function Run(messages: seq<Message>, es: seq<Event>): seq<Message>
    decreases |es|
  {
    if es == [] then messages else Run(Step(messages, es[0]), es[1..])
  }

  // ---------- Sliding windows ----------

  /** Accepted messages of a sender in the interval (a, a + seconds]. */
  ghost function Accepts(messages: seq<Message>, sender: nat, a: int, seconds: nat): nat {
    Count(messages, Within(OfSender(sender), a, a + seconds * SECOND))
  }

  /** Every interval (a, a + seconds] of every sender holds at most limit accepted messages. */
  ghost predicate Bounded(messages: seq<Message>, limit: nat, seconds: nat) {
    forall sender: nat, a: int :: Accepts(messages, sender, a, seconds) <= limit
  }

  ghost predicate Inv(messages: seq<Message>) {
    && Bounded(messages, BURST_MESSAGES, BURST_SECONDS)
    && Bounded(messages, SUSTAINED_MESSAGES, SUSTAINED_SECONDS)
  }

  /** The limit that was checked with an earlier clock still bounds the stamped instants. */
  lemma AppendKeepsBound(messages: seq<Message>, m: Message, now: int, limit: nat, seconds: nat)
    requires Bounded(messages, limit, seconds) && now <= m.acceptedAt
    requires Count(messages, After(OfSender(m.sender), now - seconds * SECOND)) < limit
    ensures Bounded(messages + [m], limit, seconds)
  {
    forall sender: nat, a: int
      ensures Accepts(messages + [m], sender, a, seconds) <= limit
    {
      var inside := Within(OfSender(sender), a, a + seconds * SECOND);
      CountAppend(messages, m, inside);
      if inside(m) {
        CountMonotone(messages, inside, After(OfSender(m.sender), now - seconds * SECOND));
      } else {
        assert Accepts(messages, sender, a, seconds) <= limit;
      }
    }
  }

  lemma {:induction false} CountMarkLive(messages: seq<Message>, i: nat, scope: Scope, a: int, b: int)
    ensures Count(MarkLive(messages, i), Within(scope, a, b)) == Count(messages, Within(scope, a, b))
  {
    if i < |messages| {
      var n := |messages| - 1;
      CountMarkLive(messages[..n], i, scope, a, b);
      if i < n {
        assert MarkLive(messages, i)[..n] == MarkLive(messages[..n], i);
      } else {
        assert MarkLive(messages, i)[..n] == messages[..n];
      }
    }
  }

  lemma StepKeepsInv(messages: seq<Message>, e: Event)
    requires Inv(messages) && ClockRuns(messages, e)
    ensures Inv(Step(messages, e))
  {
    match e
    case Sending(s) =>
      var (after, outcome) := Accept(messages, s);
      if outcome.Accepted? {
        var cs := Checks(s.sender, s.connection);
        PassesIff(messages, s.sender, s.connection, s.now);
        assert cs[0] in cs && cs[1] in cs;
        var m := after[|messages|];
        assert after == messages + [m];
        AppendKeepsBound(messages, m, s.now, BURST_MESSAGES, BURST_SECONDS);
        AppendKeepsBound(messages, m, s.now, SUSTAINED_MESSAGES, SUSTAINED_SECONDS);
      }
    case Delivered(i) =>
      forall sender: nat, a: int, seconds: nat
        ensures Accepts(MarkLive(messages, i), sender, a, seconds) == Accepts(messages, sender, a, seconds)
      {
        CountMarkLive(messages, i, OfSender(sender), a, a + seconds * SECOND);
      }
  }

  /** In every run each interval (a, a+10s] holds at most 10 accepted messages of a sender, and each
      (a, a+60s] at most 60, although the checks read the clock before the rows are stamped. */
  lemma {:induction false} RunKeepsInv(messages: seq<Message>, es: seq<Event>)
    requires Inv(messages) && AllRun(messages, es)
    ensures Inv(Run(messages, es))
    decreases |es|
  {
    if es != [] {
      StepKeepsInv(messages, es[0]);
      RunKeepsInv(Step(messages, es[0]), es[1..]);
    }
  }

  lemma EmptyInv()
    ensures Inv([])
  {
    assert forall sender: nat, a: int, seconds: nat :: Accepts([], sender, a, seconds) == 0;
  }

  /** In every run from the empty table a sender has at most 10 messages in any interval of 10 seconds and
      at most 60 in any of 60. */
  lemma EveryRunIsBounded(es: seq<Event>, sender: nat, a: int)
    requires AllRun([], es)
    ensures Accepts(Run([], es), sender, a, 10) <= 10 && Accepts(Run([], es), sender, a, 60) <= 60
  {
    EmptyInv();
    RunKeepsInv([], es);
  }

  /** The connection limit adds nothing: what it rejects, the sender's burst limit rejects too. */
  lemma ConnectionLimitIsImplied(messages: seq<Message>, sender: nat, connection: nat, now: int)
    requires Wait(messages, Check(OfSender(sender), BURST_MESSAGES, BURST_SECONDS), now) == 0
    ensures Wait(messages, Check(OfConnection(sender, connection), CONNECTION_MESSAGES, CONNECTION_SECONDS), now) == 0
  {
    var start := now - BURST_SECONDS * SECOND;
    CountMonotone(messages, After(OfConnection(sender, connection), start), After(OfSender(sender), start));
    var burst := Check(OfSender(sender), BURST_MESSAGES, BURST_SECONDS);
    var own := Check(OfConnection(sender, connection), CONNECTION_MESSAGES, CONNECTION_SECONDS);
    if Count(messages, After(own.scope, start)) >= CONNECTION_MESSAGES {
      var i := FullWindow(messages, burst, now);
    } else {
      RoomInWindow(messages, own, now);
    }
  }

  // ---------- The reported wait ----------

  lemma {:induction false} CountOneLess<T>(s: seq<T>, p: T -> bool, q: T -> bool, i: nat)
    requires i < |s| && p(s[i]) && !q(s[i])
    requires forall x :: x in s && q(x) ==> p(x)
    ensures Count(s, q) < Count(s, p)
  {
    var n := |s| - 1;
    if i < n {
      CountOneLess(s[..n], p, q, i);
    } else {
      CountMonotone(s[..n], q, p);
    }
  }

  /** The clock is at or past all stamps of the sender. */
  ghost predicate Caught(messages: seq<Message>, sender: nat, now: int) {
    forall i :: 0 <= i < |messages| && messages[i].sender == sender ==> messages[i].acceptedAt <= now
  }

  /** Then each window holds at most its limit. */
  lemma WindowAtMostLimit(messages: seq<Message>, sender: nat, connection: nat, now: int, c: Check)
    requires Inv(messages) && Caught(messages, sender, now) && c in Checks(sender, connection)
    ensures Count(messages, After(c.scope, now - c.seconds * SECOND)) <= c.limit
  {
    var start := now - c.seconds * SECOND;
    var inside := Within(OfSender(sender), start, start + c.seconds * SECOND);
    CountMonotone(messages, After(c.scope, start), inside);
    assert Accepts(messages, sender, start, c.seconds) <= c.limit;
  }

  lemma WaitIsMaximal(messages: seq<Message>, sender: nat, connection: nat, now: int, c: Check)
    requires c in Checks(sender, connection)
    ensures 0 <= RetryAfter(messages, sender, connection, now) && Wait(messages, c, now) <= RetryAfter(messages, sender, connection, now)
  {
    LongestWaitIsMax(messages, sender, connection, now);
  }

  /** After a check's own wait its window has room again. */
  lemma WindowClears(messages: seq<Message>, c: Check, now: int, later: int)
    requires c.limit > 0 && now <= later && now + Wait(messages, c, now) * SECOND <= later
    requires Count(messages, After(c.scope, now - c.seconds * SECOND)) <= c.limit
    ensures Count(messages, After(c.scope, later - c.seconds * SECOND)) < c.limit
  {
    var (start, end) := (now - c.seconds * SECOND, later - c.seconds * SECOND);
    CountMonotone(messages, After(c.scope, end), After(c.scope, start));
    if Count(messages, After(c.scope, start)) == c.limit {
      var i := FullWindow(messages, c, now);
      assert messages[i].acceptedAt <= end;
      CountOneLess(messages, After(c.scope, start), After(c.scope, end), i);
    }
  }

  /** A rejected message passes after the reported wait, if nothing else was accepted meanwhile. */
  lemma WaitIsSufficient(messages: seq<Message>, sender: nat, connection: nat, now: int)
    requires Inv(messages) && Caught(messages, sender, now)
    ensures var wait := RetryAfter(messages, sender, connection, now);
            RetryAfter(messages, sender, connection, now + wait * SECOND) == 0
  {
    var later := now + RetryAfter(messages, sender, connection, now) * SECOND;
    PassesIff(messages, sender, connection, later);
    forall c | c in Checks(sender, connection)
      ensures Count(messages, After(c.scope, later - c.seconds * SECOND)) < c.limit
    {
      WaitIsMaximal(messages, sender, connection, now, c);
      WindowAtMostLimit(messages, sender, connection, now, c);
      WindowClears(messages, c, now, later);
    }
  }

  /** Until one second before its wait is over, a full window stays full. */
  lemma WindowStaysFull(messages: seq<Message>, c: Check, now: int, retry: int)
    requires c.limit > 0 && Count(messages, After(c.scope, now - c.seconds * SECOND)) >= c.limit
    requires now <= retry <= now + (Wait(messages, c, now) - 1) * SECOND
    ensures Count(messages, After(c.scope, retry - c.seconds * SECOND)) >= c.limit
  {
    var (start, end) := (now - c.seconds * SECOND, retry - c.seconds * SECOND);
    var i := FullWindow(messages, c, now);
    assert messages[i].acceptedAt > end;
    CountMonotone(messages, After(c.scope, start), After(c.scope, end));
  }

  /** And no earlier retry, up to one second before, passes. */
  lemma WaitIsTight(messages: seq<Message>, sender: nat, connection: nat, now: int, retry: int)
    requires RetryAfter(messages, sender, connection, now) > 0
    requires now <= retry <= now + (RetryAfter(messages, sender, connection, now) - 1) * SECOND
    ensures RetryAfter(messages, sender, connection, retry) > 0
  {
    var wait := RetryAfter(messages, sender, connection, now);
    var cs := Checks(sender, connection);
    LongestWaitIsMax(messages, sender, connection, now);
    var c :| c in cs && Wait(messages, c, now) == wait by {
      assert cs[0] in cs && cs[1] in cs && cs[2] in cs;
    }
    if Count(messages, After(c.scope, now - c.seconds * SECOND)) < c.limit {
      RoomInWindow(messages, c, now);
    } else {
      WindowStaysFull(messages, c, now, retry);
      PassesIff(messages, sender, connection, retry);
    }
  }

  // ---------- Replay ----------

  ghost predicate Extends(before: seq<Message>, after: seq<Message>) {
    && |before| <= |after|
    && forall i :: 0 <= i < |before| ==> after[i] == before[i].(live := after[i].live)
  }

  lemma {:induction false} RunExtends(messages: seq<Message>, es: seq<Event>)
    ensures Extends(messages, Run(messages, es))
    decreases |es|
  {
    if es != [] {
      RunExtends(Step(messages, es[0]), es[1..]);
    }
  }

  lemma {:induction false} FindReplayStable(before: seq<Message>, after: seq<Message>, s: Send)
    requires Extends(before, after) && FindReplay(before, s).Some?
    ensures FindReplay(after, s) == FindReplay(before, s)
  {
    var n := |after| - 1;
    if |after| > |before| {
      FindReplayStable(before, after[..n], s);
    } else if FindReplay(before[..n], s).Some? {
      FindReplayStable(before[..n], after[..n], s);
    } else {
      assert forall i :: 0 <= i < n ==> before[..n][i] == before[i] && !SameKey(after[..n][i], s);
    }
  }

  /** Once a message is accepted, every later command with its room, sender and client key, however
      fast it comes, returns that very message if the body is the same and conflicts otherwise;
      neither adds a row. */
  lemma ReplayReturnsFirst(messages: seq<Message>, first: Send, es: seq<Event>, again: Send)
    requires Accept(messages, first).1.Accepted?
    requires again.access && again.room == first.room && again.sender == first.sender && again.clientId == first.clientId
    ensures var later := Run(Accept(messages, first).0, es);
            var (after, outcome) := Accept(later, again);
            && after == later
            && outcome == (if again.body == first.body then Replayed(|messages|) else ReplayConflict)
            && |messages| < |later| && later[|messages|].acceptedAt == first.stamp
  {
    var next := Accept(messages, first).0;
    var later := Run(next, es);
    RunExtends(next, es);
    assert next[..|messages|] == messages;
    assert forall i :: 0 <= i < |messages| ==> !SameKey(messages[i], first);
    assert FindReplay(messages, again).None? by {
      var r := FindReplay(messages, again);
      if r.Some? { assert SameKey(messages[r.value], first); }
    }
    assert FindReplay(next, again) == Some(|messages|);
    FindReplayStable(next, later, again);
  }
}

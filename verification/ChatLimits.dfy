/** Chat acceptance (src/apps/chat/services.py:373-510): replay detection and three windowed limits,
    all decided under the sender's row lock. Instants are microseconds. The decision reads the clock
    as now; the insert stamps the row later, so only now <= stamp is known. */
module ChatLimits {
  import opened Base

  const SECOND: int := 1_000_000
  const BURST_MESSAGES: nat := 10
  const BURST_SECONDS: nat := 10
  const SUSTAINED_MESSAGES: nat := 60
  const SUSTAINED_SECONDS: nat := 60
  const CONNECTION_MESSAGES: nat := 10
  const CONNECTION_SECONDS: nat := 10

  /** The payload digest keeps what it digests: room, sender and normalized body. */
  datatype Digest = Sha256(room: nat, sender: nat, body: string)

  datatype Message = Message(room: nat, sender: nat, connection: nat, clientId: nat, digest: Digest, acceptedAt: int, live: bool)

  datatype Outcome =
    | Forbidden
    | ReplayConflict
    | Replayed(index: nat)
    | RateLimited(retryAfter: int)
    | NotificationFailed
    | Accepted(index: nat)

  // ---------- Windows ----------

  /** Whose messages a limit counts: all of a sender's, or those of one connection. */
  datatype Scope = OfSender(sender: nat) | OfConnection(sender: nat, connection: nat)

  predicate InScope(m: Message, scope: Scope) {
    m.sender == scope.sender && (scope.OfConnection? ==> m.connection == scope.connection)
  }

  /** Messages of the scope stamped after an instant. */
  function After(scope: Scope, instant: int): Message -> bool {
    (m: Message) => InScope(m, scope) && m.acceptedAt > instant
  }

  /** Messages of the scope stamped in the half-open interval (a, b]. */
  function Within(scope: Scope, a: int, b: int): Message -> bool {
    (m: Message) => InScope(m, scope) && a < m.acceptedAt <= b
  }

  function Stamps(messages: seq<Message>, p: Message -> bool): seq<int> {
    if messages == [] then []
    else
      var last := messages[|messages| - 1];
      Stamps(messages[..|messages| - 1], p) + (if p(last) then [last.acceptedAt] else [])
  }

  function InsertSorted(s: seq<int>, x: int): seq<int> {
    if s == [] || s[|s| - 1] <= x then s + [x] else InsertSorted(s[..|s| - 1], x) + [s[|s| - 1]]
  }

  /** Ascending order. */
  function Sorted(s: seq<int>): seq<int> {
    if s == [] then [] else InsertSorted(Sorted(s[..|s| - 1]), s[|s| - 1])
  }

  /** The limited, ordered query of one check. */
  function Query(messages: seq<Message>, scope: Scope, start: int, limit: nat): seq<int> {
    var all := Sorted(Stamps(messages, After(scope, start)));
    if |all| <= limit then all else all[..limit]
  }

  // ---------- The limits ----------

  datatype Check = Check(scope: Scope, limit: nat, seconds: nat)

  function Checks(sender: nat, connection: nat): seq<Check> {
    [Check(OfSender(sender), BURST_MESSAGES, BURST_SECONDS),
     Check(OfSender(sender), SUSTAINED_MESSAGES, SUSTAINED_SECONDS),
     Check(OfConnection(sender, connection), CONNECTION_MESSAGES, CONNECTION_SECONDS)]
  }

  function CeilSeconds(micros: int): int {
    (micros + SECOND - 1) / SECOND
  }

  function Wait(messages: seq<Message>, c: Check, now: int): int {
    var stamps := Query(messages, c.scope, now - c.seconds * SECOND, c.limit);
    if |stamps| >= c.limit && stamps != [] then CeilSeconds(stamps[0] + c.seconds * SECOND - now) else 0
  }

  function Max(a: int, b: int): int {
    if a < b then b else a
  }

  function LongestWait(messages: seq<Message>, checks: seq<Check>, now: int): int {
    if checks == [] then 0
    else Max(LongestWait(messages, checks[..|checks| - 1], now), Wait(messages, checks[|checks| - 1], now))
  }

  function RetryAfter(messages: seq<Message>, sender: nat, connection: nat, now: int): int {
    LongestWait(messages, Checks(sender, connection), now)
  }

  // ---------- Acceptance ----------

  datatype Send = Send(access: bool, room: nat, sender: nat, connection: nat, clientId: nat, body: string,
                       now: int, stamp: int, notified: bool)

  predicate SameKey(m: Message, s: Send) {
    m.room == s.room && m.sender == s.sender && m.clientId == s.clientId
  }

  function FindReplay(messages: seq<Message>, s: Send): (r: Option<nat>)
    ensures r.Some? ==> r.value < |messages| && SameKey(messages[r.value], s)
    ensures r.None? ==> forall i :: 0 <= i < |messages| ==> !SameKey(messages[i], s)
  {
    if messages == [] then None
    else
      var n := |messages| - 1;
      match FindReplay(messages[..n], s)
      case Some(i) => Some(i)
      case None => if SameKey(messages[n], s) then Some(n) else None
  }

  /** One acceptance. access: the sender may write to the room; notified: the room is not a product
      room, or its recipient's notification was created. */
  function Accept(messages: seq<Message>, s: Send): (seq<Message>, Outcome) {
    if !s.access then (messages, Forbidden)
    else
      var digest := Sha256(s.room, s.sender, s.body);
      match FindReplay(messages, s)
      case Some(i) => (messages, if messages[i].digest != digest then ReplayConflict else Replayed(i))
      case None =>
        var wait := RetryAfter(messages, s.sender, s.connection, s.now);
        if wait != 0 then (messages, RateLimited(Max(1, wait)))
        else if !s.notified then (messages, NotificationFailed)
        else
          (messages + [Message(s.room, s.sender, s.connection, s.clientId, digest, s.stamp, false)], Accepted(|messages|))
  }

  /** Live delivery succeeded: the row is updated after its transaction. */
  function MarkLive(messages: seq<Message>, i: nat): seq<Message> {
    if i < |messages| then messages[i := messages[i].(live := true)] else messages
  }

  // ---------- The query counts and finds the earliest ----------

  lemma {:induction false} StampsCount(messages: seq<Message>, p: Message -> bool)
    ensures |Stamps(messages, p)| == Count(messages, p)
    ensures forall x :: x in Stamps(messages, p) <==> exists i :: 0 <= i < |messages| && p(messages[i]) && messages[i].acceptedAt == x
  {
    if messages != [] {
      var n := |messages| - 1;
      StampsCount(messages[..n], p);
      forall x
        ensures x in Stamps(messages, p) <==> exists i :: 0 <= i < |messages| && p(messages[i]) && messages[i].acceptedAt == x
      {
        if x in Stamps(messages[..n], p) {
          var i :| 0 <= i < n && p(messages[..n][i]) && messages[..n][i].acceptedAt == x;
          assert p(messages[i]) && messages[i].acceptedAt == x;
        }
        if i :| 0 <= i < |messages| && p(messages[i]) && messages[i].acceptedAt == x {
          if i < n { assert p(messages[..n][i]); }
        }
      }
    }
  }

  ghost predicate Ascending(s: seq<int>) {
    forall i, j :: 0 <= i < j < |s| ==> s[i] <= s[j]
  }

  lemma {:induction false} InsertSortedIs(s: seq<int>, x: int)
    requires Ascending(s)
    ensures Ascending(InsertSorted(s, x)) && |InsertSorted(s, x)| == |s| + 1
    ensures forall y :: y in InsertSorted(s, x) <==> y in s || y == x
  {
    if s != [] && s[|s| - 1] > x {
      var n := |s| - 1;
      InsertSortedIs(s[..n], x);
      assert s == s[..n] + [s[n]];
      assert forall y :: y in s[..n] ==> y <= s[n];
      var inner := InsertSorted(s[..n], x);
      forall i | 0 <= i < |inner|
        ensures inner[i] <= s[n]
      {
        assert inner[i] in inner;
      }
      assert InsertSorted(s, x) == inner + [s[n]];
    } else {
      assert forall y :: y in s ==> y <= x;
    }
  }

  lemma {:induction false} SortedIs(s: seq<int>)
    ensures Ascending(Sorted(s)) && |Sorted(s)| == |s|
    ensures forall y :: y in Sorted(s) <==> y in s
  {
    if s != [] {
      var n := |s| - 1;
      SortedIs(s[..n]);
      InsertSortedIs(Sorted(s[..n]), s[n]);
      assert s == s[..n] + [s[n]];
    }
  }

  /** The ordered query starts with the earliest stamp of its window. */
  lemma EarliestStamp(messages: seq<Message>, scope: Scope, start: int) returns (i: nat)
    requires Count(messages, After(scope, start)) > 0
    ensures i < |messages| && After(scope, start)(messages[i])
    ensures forall j :: 0 <= j < |messages| && After(scope, start)(messages[j]) ==> messages[i].acceptedAt <= messages[j].acceptedAt
    ensures var sorted := Sorted(Stamps(messages, After(scope, start)));
            |sorted| == Count(messages, After(scope, start)) && sorted[0] == messages[i].acceptedAt
  {
    var p := After(scope, start);
    var stamps := Stamps(messages, p);
    StampsCount(messages, p);
    SortedIs(stamps);
    var x := Sorted(stamps)[0];
    assert x in Sorted(stamps);
    i :| 0 <= i < |messages| && p(messages[i]) && messages[i].acceptedAt == x;
    forall j | 0 <= j < |messages| && p(messages[j])
      ensures x <= messages[j].acceptedAt
    {
      assert messages[j].acceptedAt in stamps;
      assert messages[j].acceptedAt in Sorted(stamps);
    }
  }

  lemma RoomInWindow(messages: seq<Message>, c: Check, now: int)
    requires Count(messages, After(c.scope, now - c.seconds * SECOND)) < c.limit
    ensures Wait(messages, c, now) == 0
  {
    StampsCount(messages, After(c.scope, now - c.seconds * SECOND));
    SortedIs(Stamps(messages, After(c.scope, now - c.seconds * SECOND)));
  }

  /** A check with a full window waits for its earliest message to leave the window. */
  lemma FullWindow(messages: seq<Message>, c: Check, now: int) returns (i: nat)
    requires c.limit > 0 && Count(messages, After(c.scope, now - c.seconds * SECOND)) >= c.limit
    ensures i < |messages| && After(c.scope, now - c.seconds * SECOND)(messages[i])
    ensures forall j :: 0 <= j < |messages| && After(c.scope, now - c.seconds * SECOND)(messages[j]) ==>
              messages[i].acceptedAt <= messages[j].acceptedAt
    ensures Wait(messages, c, now) == CeilSeconds(messages[i].acceptedAt + c.seconds * SECOND - now) >= 1
  {
    i := EarliestStamp(messages, c.scope, now - c.seconds * SECOND);
  }

  lemma LongestWaitIsMax(messages: seq<Message>, sender: nat, connection: nat, now: int)
    ensures var cs := Checks(sender, connection);
            RetryAfter(messages, sender, connection, now)
            == Max(Max(Max(0, Wait(messages, cs[0], now)), Wait(messages, cs[1], now)), Wait(messages, cs[2], now))
  {
    var cs := Checks(sender, connection);
    assert cs[..2][..1] == cs[..1] && cs[..1][..0] == [] && |cs| == 3;
    assert LongestWait(messages, cs[..1], now) == Max(0, Wait(messages, cs[0], now));
    assert LongestWait(messages, cs[..2], now) == Max(LongestWait(messages, cs[..1], now), Wait(messages, cs[1], now));
  }

  /** A message passes the limits exactly when each of the three windows has room. */
  lemma PassesIff(messages: seq<Message>, sender: nat, connection: nat, now: int)
    ensures RetryAfter(messages, sender, connection, now) == 0 <==>
              forall c :: c in Checks(sender, connection) ==> Count(messages, After(c.scope, now - c.seconds * SECOND)) < c.limit
    ensures RetryAfter(messages, sender, connection, now) >= 0
  {
    var cs := Checks(sender, connection);
    LongestWaitIsMax(messages, sender, connection, now);
    forall c | c in cs
      ensures Wait(messages, c, now) == 0 <==> Count(messages, After(c.scope, now - c.seconds * SECOND)) < c.limit
      ensures Wait(messages, c, now) >= 0
    {
      if Count(messages, After(c.scope, now - c.seconds * SECOND)) < c.limit {
        RoomInWindow(messages, c, now);
      } else {
        var i := FullWindow(messages, c, now);
      }
    }
    assert cs[0] in cs && cs[1] in cs && cs[2] in cs;
  }
}

/** What an acceptance answers, told from the message rows alone (src/apps/chat/services.py:72, 154-240,
    396-426, 471-510). */
module ChatOutcomes {
  import opened Base
  import opened ChatLimits
  import ChatRates

  /** Positions of the sender's messages stamped in the last seconds before now. */
  function Recent(messages: seq<Message>, sender: nat, now: int, seconds: nat): set<nat> {
    set i | 0 <= i < |messages| && messages[i].sender == sender && messages[i].acceptedAt > now - seconds * 1_000_000
  }

  /** A row with the request's room, sender and client id. */
  predicate Holds(messages: seq<Message>, i: nat, s: Send) {
    i < |messages| && messages[i].room == s.room && messages[i].sender == s.sender && messages[i].clientId == s.clientId
  }

  ghost predicate SentBefore(messages: seq<Message>, s: Send) {
    exists i :: 0 <= i < |messages| && Holds(messages, i, s)
  }

  predicate HasRoom(messages: seq<Message>, sender: nat, now: int) {
    |Recent(messages, sender, now, 10)| < 10 && |Recent(messages, sender, now, 60)| < 60
  }

  lemma RecentIsCount(messages: seq<Message>, sender: nat, now: int, seconds: nat)
    ensures |Recent(messages, sender, now, seconds)| == Count(messages, After(OfSender(sender), now - seconds * SECOND))
  {
    var p := After(OfSender(sender), now - seconds * SECOND);
    CountIsSize(messages, p);
    var (recent, counted) := (Recent(messages, sender, now, seconds), Where(messages, p));
    forall i ensures i in recent <==> i in counted {
    }
    assert recent == counted;
  }

  /** The three limits together ask for room in the sender's two windows; the connection adds nothing. */
  lemma HasRoomIff(messages: seq<Message>, sender: nat, connection: nat, now: int)
    ensures HasRoom(messages, sender, now) <==> RetryAfter(messages, sender, connection, now) == 0
    ensures RetryAfter(messages, sender, connection, now) >= 0
  {
    PassesIff(messages, sender, connection, now);
    RecentIsCount(messages, sender, now, 10);
    RecentIsCount(messages, sender, now, 60);
    var cs := Checks(sender, connection);
    assert cs[0] in cs && cs[1] in cs && cs[2] in cs;
    CountMonotone(messages, After(OfConnection(sender, connection), now - 10 * SECOND), After(OfSender(sender), now - 10 * SECOND));
  }

  /** Which answer a request gets, for every table and every request. */
  lemma AnswerIff(messages: seq<Message>, s: Send)
    ensures var outcome := Accept(messages, s).1; var sent := SentBefore(messages, s); var room := HasRoom(messages, s.sender, s.now);
            && (outcome.Forbidden? <==> !s.access)
            && (outcome.Replayed? || outcome.ReplayConflict? <==> s.access && sent)
            && (outcome.RateLimited? <==> s.access && !sent && !room)
            && (outcome.NotificationFailed? <==> s.access && !sent && room && !s.notified)
            && (outcome.Accepted? <==> s.access && !sent && room && s.notified)
  {
    HasRoomIff(messages, s.sender, s.connection, s.now);
    var found := FindReplay(messages, s);
    if found.Some? {
      assert Holds(messages, found.value, s);
    }
  }

  /** An accepted message is one new row with the request's own fields, not yet delivered; every other
      answer leaves the table as it was, and a replay names a row of the request with the same text. */
  lemma AnswerRows(messages: seq<Message>, s: Send)
    ensures var (after, outcome) := Accept(messages, s);
            if outcome.Accepted? then
              && outcome.index == |messages| && |after| == |messages| + 1 && after[..|messages|] == messages
              && (var m := after[|messages|];
                  && m.room == s.room && m.sender == s.sender && m.connection == s.connection && m.clientId == s.clientId
                  && m.digest == Sha256(s.room, s.sender, s.body) && m.acceptedAt == s.stamp && !m.live)
            else
              && after == messages
              && (outcome.Replayed? ==> Holds(messages, outcome.index, s) && messages[outcome.index].digest.body == s.body)
    ensures Accept(messages, s).1.ReplayConflict? ==>
              exists i :: 0 <= i < |messages| && Holds(messages, i, s) && messages[i].digest != Sha256(s.room, s.sender, s.body)
  {
    var found := FindReplay(messages, s);
    if found.Some? {
      assert Holds(messages, found.value, s);
    }
  }

  /** The same request later: only the windows can change its being rejected. */
  lemma LaterIsLimitedIff(messages: seq<Message>, s: Send, later: int)
    requires Accept(messages, s).1.RateLimited?
    ensures Accept(messages, s.(now := later)).1.RateLimited? <==> RetryAfter(messages, s.sender, s.connection, later) != 0
  {
    SameReplay(messages, s, later);
  }

  lemma LimitIsWait(messages: seq<Message>, s: Send)
    requires Accept(messages, s).1.RateLimited?
    ensures Accept(messages, s).1.retryAfter == RetryAfter(messages, s.sender, s.connection, s.now) >= 1
  {
    HasRoomIff(messages, s.sender, s.connection, s.now);
  }

  /** The reported wait is the time to the first second at which the same request is not rejected again. */
  lemma RateLimitTellsTheWait(messages: seq<Message>, s: Send, retry: int)
    requires ChatRates.Inv(messages) && ChatRates.Caught(messages, s.sender, s.now)
    requires Accept(messages, s).1.RateLimited?
    ensures var wait := Accept(messages, s).1.retryAfter;
            && wait >= 1
            && !Accept(messages, s.(now := s.now + wait * 1_000_000)).1.RateLimited?
            && (s.now <= retry <= s.now + (wait - 1) * 1_000_000 ==> Accept(messages, s.(now := retry)).1.RateLimited?)
  {
    var wait := Accept(messages, s).1.retryAfter;
    LimitIsWait(messages, s);
    ChatRates.WaitIsSufficient(messages, s.sender, s.connection, s.now);
    LaterIsLimitedIff(messages, s, s.now + wait * 1_000_000);
    if s.now <= retry <= s.now + (wait - 1) * 1_000_000 {
      ChatRates.WaitIsTight(messages, s.sender, s.connection, s.now, retry);
      LaterIsLimitedIff(messages, s, retry);
    }
  }

  /** Recording a delivery marks that one row delivered. */
  lemma DeliveryOutcome(messages: seq<Message>, i: nat)
    ensures var after := MarkLive(messages, i);
            |after| == |messages| && forall j :: 0 <= j < |messages| ==>
              && (j != i ==> after[j] == messages[j])
              && (j == i ==> after[j].live && after[j].(live := messages[j].live) == messages[j])
  {
  }

  /** Replay detection looks at the key only. */
  lemma {:induction false} SameReplay(messages: seq<Message>, s: Send, now: int)
    ensures FindReplay(messages, s.(now := now)) == FindReplay(messages, s)
  {
    if messages != [] {
      SameReplay(messages[..|messages| - 1], s, now);
    }
  }
}

/** Who may write to each kind of room, in terms of the rows. */
module ChatAccessOutcomes {
  import opened Accounts
  import opened ChatAccess

  predicate Active(users: seq<User>, id: nat) {
    id < |users| && users[id].isActive && !users[id].withdrawn && !users[id].dormant
  }

  /** The global room: any active user. A direct room: an active member. A product room: either of two
      different active parties, who are its only participants, while the seller still owns the product and
      it is neither archived nor hidden. */
  lemma MayAcceptIff(w: World, room: nat, sender: nat)
    ensures MayAccept(w, room, sender) <==>
              && room in w.rooms
              && (match w.rooms[room]
                  case Global => Active(w.users, sender)
                  case Direct(low, high) => Active(w.users, sender) && (sender == low || sender == high)
                  case ProductRoom =>
                    && room in w.conversations && room in w.participants
                    && (var c := w.conversations[room];
                        && c.seller != c.buyer && (sender == c.seller || sender == c.buyer)
                        && w.participants[room] == {c.seller, c.buyer}
                        && Active(w.users, c.seller) && Active(w.users, c.buyer)
                        && c.product in w.products && w.products[c.product].owner == c.seller
                        && !w.products[c.product].archived && !w.products[c.product].hidden))
  {
    if room in w.rooms && w.rooms[room].ProductRoom? && room in w.conversations {
      var c := w.conversations[room];
      assert c.seller in {c.seller, c.buyer};
    }
  }
}

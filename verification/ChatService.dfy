/** Who may write to a room (src/apps/chat/services.py:154-240), and the acceptance service as a class
    over the message table. */
module ChatAccess {
  import opened Base
  import opened Accounts

  datatype Room = Global | Direct(low: nat, high: nat) | ProductRoom
  datatype Conversation = Conversation(product: nat, seller: nat, buyer: nat)
  datatype Product = Product(owner: nat, archived: bool, hidden: bool)

  datatype World = World(
    users: seq<User>,
    rooms: map<nat, Room>,
    participants: map<nat, set<nat>>,
    conversations: map<nat, Conversation>,
    products: map<nat, Product>)

  function ParticipantsOf(w: World, room: nat): set<nat> {
    if room in w.participants then w.participants[room] else {}
  }

  predicate ContainsUser(w: World, room: nat, user: nat)
    requires room in w.rooms
  {
    match w.rooms[room]
    case Global => true
    case Direct(low, high) => user == low || user == high
    case ProductRoom => user in ParticipantsOf(w, room)
  }

  predicate Visible(w: World, product: nat) {
    product in w.products && !w.products[product].archived && !w.products[product].hidden
  }

  predicate RoomAccess(w: World, room: nat, user: nat) {
    && room in w.rooms
    && ContainsUser(w, room, user)
    && (w.rooms[room].ProductRoom? ==>
          && room in w.conversations
          && (var c := w.conversations[room];
              && ParticipantsOf(w, room) == {c.seller, c.buyer}
              && Visible(w, c.product)
              && w.products[c.product].owner == c.seller
              && (forall p :: p in ParticipantsOf(w, room) ==> MayTrade(w.users, p))))
  }

  predicate MayAccept(w: World, room: nat, sender: nat) {
    if room !in w.rooms then false
    else if !w.rooms[room].ProductRoom? then MayTrade(w.users, sender) && RoomAccess(w, room, sender)
    else
      && room in w.conversations
      && (var c := w.conversations[room];
          && (sender == c.seller || sender == c.buyer)
          && c.seller != c.buyer
          && MayTrade(w.users, c.seller) && MayTrade(w.users, c.buyer)
          && c.product in w.products && w.products[c.product].owner == c.seller && !w.products[c.product].archived)
      && RoomAccess(w, room, sender)
  }

  /** A product room is open to both parties or to neither, and to nobody else: one party's
      suspension or withdrawal, or hiding the product, silences both. */
  lemma ProductRoomIsMutual(w: World, room: nat, sender: nat)
    requires room in w.rooms && w.rooms[room].ProductRoom? && room in w.conversations
    ensures var c := w.conversations[room];
            && (MayAccept(w, room, c.seller) <==> MayAccept(w, room, c.buyer))
            && (MayAccept(w, room, sender) ==> MayAccept(w, room, c.seller) && sender in {c.seller, c.buyer})
            && (!MayTrade(w.users, c.seller) || !MayTrade(w.users, c.buyer) || !Visible(w, c.product) ==> !MayAccept(w, room, sender))
  {
  }

  /** A direct room asks only whether the writer is active and one of the two members. */
  lemma DirectRoomAsksOnlyTheSender(w: World, room: nat, sender: nat)
    requires room in w.rooms && w.rooms[room].Direct?
    ensures MayAccept(w, room, sender) <==> MayTrade(w.users, sender) && sender in {w.rooms[room].low, w.rooms[room].high}
  {
  }
}

module ChatService {
  import opened Base
  import opened ChatLimits

  class Service {
    var messages: seq<Message>

    constructor ()
      ensures messages == []
    {
      messages := [];
    }

    /** Zero when the message passes, else the wait to report. */
    method EnforceRateLimits(sender: nat, connection: nat, now: int) returns (retryAfter: int)
      ensures retryAfter == RetryAfter(messages, sender, connection, now)
    {
      var checks := Checks(sender, connection);
      retryAfter := 0;
      for i := 0 to |checks|
        invariant retryAfter == LongestWait(messages, checks[..i], now)
      {
        assert checks[..i + 1][..i] == checks[..i];
        var Check(scope, limit, seconds) := checks[i];
        var timestamps := Query(messages, scope, now - seconds * SECOND, limit);
        if |timestamps| >= limit {
          var remaining := timestamps[0] + seconds * SECOND - now;
          retryAfter := Max(retryAfter, CeilSeconds(remaining));
        } else {
          NoWaitKeepsMaximum(messages, checks[..i], now);
        }
      }
      assert checks[..|checks|] == checks;
    }

    method Accept(s: Send) returns (outcome: Outcome)
      modifies this
      ensures (messages, outcome) == ChatLimits.Accept(old(messages), s)
    {
      if !s.access {
        return Forbidden;
      }
      var digest := Sha256(s.room, s.sender, s.body);
      var replay := FindReplay(messages, s);
      if replay.Some? {
        if messages[replay.value].digest != digest {
          return ReplayConflict;
        }
        return Replayed(replay.value);
      }
      var retryAfter := EnforceRateLimits(s.sender, s.connection, s.now);
      if retryAfter != 0 {
        return RateLimited(Max(1, retryAfter));
      }
      var saved := messages;
      messages := messages + [Message(s.room, s.sender, s.connection, s.clientId, digest, s.stamp, false)];
      if !s.notified {
        messages := saved;
        return NotificationFailed;
      }
      outcome := Accepted(|messages| - 1);
    }

    /** After the commit: live delivery is tried, and only its success is stored. */
    method Publish(i: nat, delivered: bool)
      modifies this
      ensures messages == if delivered then MarkLive(old(messages), i) else old(messages)
    {
      if delivered && i < |messages| {
        messages := messages[i := messages[i].(live := true)];
      }
    }
  }

  lemma {:induction false} NoWaitKeepsMaximum(messages: seq<Message>, checks: seq<Check>, now: int)
    ensures LongestWait(messages, checks, now) >= 0
  {
    if checks != [] {
      NoWaitKeepsMaximum(messages, checks[..|checks| - 1], now);
    }
  }
}

/** Idempotency keys over whole runs, for both transfer entry points together. */
module LedgerIdempotency {
  import opened Base
  import opened Accounts
  import opened Ledger
  import opened LedgerInvariant
  import CanonicalPayload

  // ---------- What a transfer request stores, in one step ----------

  /** The request as its canonical payload sees it. */
  function PayloadOf(c: Command): CanonicalPayload.Payload
    requires IsTransfer(c)
  {
    match c
    case ByName(_, _, name, cents, _, _) => CanonicalPayload.ByName(name, cents)
    case ByRoom(_, _, _, room, cents, _, _) => CanonicalPayload.ByRoom(room, cents)
  }

  /** The stored answer of a sender for a key, if there is one. */
  function Stored(l: Tables, senderUser: nat, key: nat): Option<Request> {
    match FindAccount(l.accounts, senderUser)
    case None => None
    case Some(i) => if (i, key) in l.requests then Some(l.requests[(i, key)]) else None
  }

  predicate Uses(c: Command, senderUser: nat, key: nat) {
    IsTransfer(c) && c.sender == senderUser && c.key == key
  }

  /** Money moves exactly when a transfer row appears. */
  predicate Moves(l: Tables, c: Command)
    requires WellFormed(c)
  {
    Step(l, c).transfers != l.transfers
  }

  /** What one attempt at a new key can do: nothing, store a denial, or post one transfer. */
  lemma ExecuteCases(l: Tables, users: seq<User>, senderUser: nat, name: string, cents: nat, key: nat, payload: string)
    requires Stored(l, senderUser, key).None?
    ensures var (after, outcome) := ExecuteOnce(l, users, senderUser, name, cents, key, payload);
            || (after == l && !outcome.Replied?)
            || (outcome.Replied? && !outcome.replayed
                && FindAccount(l.accounts, senderUser).Some?
                && ExtendsUsers(l.accounts, after.accounts)
                && (var i := FindAccount(l.accounts, senderUser).value;
                    && after.requests.Keys == l.requests.Keys + {(i, key)}
                    && (forall k :: k in l.requests ==> after.requests[k] == l.requests[k])
                    && after.requests[(i, key)].payload == payload
                    && after.requests[(i, key)].status == outcome.status
                    && after.requests[(i, key)].body == outcome.body
                    && (after.requests[(i, key)].transfer.Some? <==> outcome.status == 201)
                    && (after.transfers == l.transfers <==> outcome.status != 201)))
  {
  }

  /** With no stored answer, an attempt does nothing, or stores its own answer for its key; money moves
      exactly with a stored 201. */
  ghost predicate AnswersOnce(l: Tables, after: Tables, outcome: Outcome, sender: nat, key: nat, payload: string) {
    || (after == l && !outcome.Replied?)
    || (&& outcome.Replied? && !outcome.replayed
        && Stored(after, sender, key).Some?
        && ExtendsUsers(l.accounts, after.accounts)
        && (var stored := Stored(after, sender, key).value;
            && stored.payload == payload && stored.status == outcome.status && stored.body == outcome.body
            && (forall k :: k in l.requests ==> k in after.requests && after.requests[k] == l.requests[k])
            && (stored.transfer.Some? <==> stored.status == 201)
            && (after.transfers == l.transfers <==> stored.status != 201)))
  }

  lemma TransferAnswersOnce(l: Tables, users: seq<User>, sender: nat, name: string, cents: nat, key: nat, payload: string, faults: seq<Fault>)
    requires |faults| == 4 && Stored(l, sender, key).None?
    ensures var (after, outcome) := Transfer(l, users, sender, name, cents, key, payload, faults, 0);
            AnswersOnce(l, after, outcome, sender, key, payload)
  {
    TransferIsOneExecution(l, users, sender, name, cents, key, payload, faults, 0);
    ExecuteCases(l, users, sender, name, cents, key, payload);
    var (after, outcome) := Transfer(l, users, sender, name, cents, key, payload, faults, 0);
    if outcome.Replied? {
      FindAccountStable(l.accounts, after.accounts, sender);
    }
  }

  lemma RoomAnswersOnce(l: Tables, users: seq<User>, rooms: map<nat, Conversation>, sender: nat, room: nat, cents: nat, key: nat,
                        faults: seq<Fault>)
    requires |faults| == 4 && Stored(l, sender, key).None?
    ensures var (after, outcome) := TransferForRoom(l, users, rooms, sender, room, cents, key, faults);
            AnswersOnce(l, after, outcome, sender, key, CanonicalPayload.CanonicalByRoom(room, cents))
  {
    if room in rooms {
      var peer := if sender == rooms[room].seller then rooms[room].buyer else rooms[room].seller;
      if peer < |users| {
        TransferAnswersOnce(l, users, sender, users[peer].username, cents, key, CanonicalPayload.CanonicalByRoom(room, cents), faults);
      }
    }
  }

  /** A transfer command seen from its key: a stored answer decides everything; otherwise it answers once. */
  lemma TransferStep(l: Tables, c: Command)
    requires WellFormed(c) && IsTransfer(c)
    ensures var (after, outcome) := Reply(l, c);
            var payload := CanonicalPayload.Encode(PayloadOf(c));
            match Stored(l, c.sender, c.key)
            case Some(previous) =>
              && after == l
              && (outcome == Replay(previous, payload) || (c.ByName? && (outcome == TransferUnavailable || outcome == Failed)))
            case None => AnswersOnce(l, after, outcome, c.sender, c.key, payload)
  {
    match c
    case ByName(users, sender, name, cents, key, faults) =>
      var payload := CanonicalPayload.CanonicalByName(name, cents);
      TransferIsOneExecution(l, users, sender, name, cents, key, payload, faults, 0);
      if Stored(l, sender, key).None? {
        TransferAnswersOnce(l, users, sender, name, cents, key, payload, faults);
      }
    case ByRoom(users, rooms, sender, room, cents, key, faults) =>
      if Stored(l, sender, key).None? {
        RoomAnswersOnce(l, users, rooms, sender, room, cents, key, faults);
      }
  }

  // ---------- Stored answers last ----------

  /** Every command keeps every stored answer, and only the sender's own request adds one. */
  lemma StoredLasts(l: Tables, c: Command, senderUser: nat, key: nat)
    requires WellFormed(c)
    ensures Stored(l, senderUser, key).Some? ==> Stored(Step(l, c), senderUser, key) == Stored(l, senderUser, key)
    ensures Stored(l, senderUser, key).Some? && Uses(c, senderUser, key) ==> Step(l, c) == l
  {
    var after := Step(l, c);
    if IsTransfer(c) {
      TransferStep(l, c);
    }
    if Stored(l, senderUser, key).Some? {
      assert ExtendsUsers(l.accounts, after.accounts);
      FindAccountStable(l.accounts, after.accounts, senderUser);
    }
  }

  lemma {:induction false} StoredLastsOverRun(l: Tables, cs: seq<Command>, senderUser: nat, key: nat)
    requires AllWellFormed(cs)
    requires Stored(l, senderUser, key).Some?
    ensures Stored(Run(l, cs), senderUser, key) == Stored(l, senderUser, key)
  {
    if cs != [] {
      var n := |cs| - 1;
      StoredLastsOverRun(l, cs[..n], senderUser, key);
      StoredLasts(Run(l, cs[..n]), cs[n], senderUser, key);
    }
  }

  // ---------- Money moves at most once per key ----------

  ghost function CountMoves(l: Tables, cs: seq<Command>, senderUser: nat, key: nat): nat
    requires AllWellFormed(cs)
  {
    if cs == [] then 0
    else
      var n := |cs| - 1;
      CountMoves(l, cs[..n], senderUser, key)
      + (if Uses(cs[n], senderUser, key) && Moves(Run(l, cs[..n]), cs[n]) then 1 else 0)
  }

  /** Whatever the tables, whatever else runs and whatever attempts fail, the commands that carry one
      sender's key move money at most once. */
  lemma {:induction false} MovesAtMostOnce(l: Tables, cs: seq<Command>, senderUser: nat, key: nat)
    requires AllWellFormed(cs)
    ensures CountMoves(l, cs, senderUser, key) <= 1
    ensures CountMoves(l, cs, senderUser, key) == 1 ==> Stored(Run(l, cs), senderUser, key).Some?
  {
    if cs != [] {
      var n := |cs| - 1;
      var before := Run(l, cs[..n]);
      MovesAtMostOnce(l, cs[..n], senderUser, key);
      StoredLasts(before, cs[n], senderUser, key);
      if Uses(cs[n], senderUser, key) {
        TransferStep(before, cs[n]);
      }
    }
  }

  /** The attempt i at which the loop ends: the first one that does not fail retryably, or none. */
  lemma {:induction false} AttemptsUntil(l: Tables, users: seq<User>, senderUser: nat, name: string, cents: nat, key: nat, payload: string,
                                         faults: seq<Fault>, attempt: nat) returns (i: nat)
    requires |faults| == 4 && attempt < 4
    ensures attempt <= i <= 4 && (forall h :: attempt <= h < i ==> faults[h].Retryable?) && (i < 4 ==> !faults[i].Retryable?)
    ensures Transfer(l, users, senderUser, name, cents, key, payload, faults, attempt) ==
            if i == 4 then (l, TransferUnavailable)
            else if faults[i].NoFault? then ExecuteOnce(l, users, senderUser, name, cents, key, payload)
            else (l, Failed)
    decreases 4 - attempt
  {
    if !faults[attempt].Retryable? {
      i := attempt;
    } else if attempt == 3 {
      i := 4;
    } else {
      i := AttemptsUntil(l, users, senderUser, name, cents, key, payload, faults, attempt + 1);
    }
  }

  /** Some attempt runs without a fault, and all before it failed retryably. */
  predicate GetsThrough(faults: seq<Fault>)
    requires |faults| == 4
  {
    exists i :: 0 <= i < 4 && faults[i].NoFault? && forall h :: 0 <= h < i ==> faults[h].Retryable?
  }

  /** What a call by name answers when no attempt gets through. */
  function FaultAnswer(faults: seq<Fault>): Outcome
    requires |faults| == 4
  {
    if forall i :: 0 <= i < 4 ==> faults[i].Retryable? then TransferUnavailable else Failed
  }

  /** The loop over a key that has its answer. */
  lemma AnsweredTransfer(l: Tables, users: seq<User>, sender: nat, name: string, cents: nat, key: nat, payload: string, faults: seq<Fault>)
    requires |faults| == 4 && Stored(l, sender, key).Some?
    ensures Transfer(l, users, sender, name, cents, key, payload, faults, 0).1 ==
            if GetsThrough(faults) then Replay(Stored(l, sender, key).value, payload) else FaultAnswer(faults)
  {
    var i := AttemptsUntil(l, users, sender, name, cents, key, payload, faults, 0);
  }

  /** A repeated request, after any run: the same payload gets the first status and body again (no safety
      check stands in the way), another payload conflicts, and neither changes a row. Before it reads the
      stored answer a repeat by name may meet any faults; the last case is when no attempt gets through. */
  lemma ReplayReturnsFirstAnswer(l: Tables, first: Command, cs: seq<Command>, again: Command)
    requires WellFormed(first) && WellFormed(again) && AllWellFormed(cs)
    requires IsTransfer(first) && Uses(again, first.sender, first.key)
    requires Reply(l, first).1.Replied?
    ensures var answer := Reply(l, first).1;
            var later := Run(Step(l, first), cs);
            && Step(later, again) == later
            && Reply(later, again).1 ==
               if again.ByName? && !GetsThrough(again.faults) then FaultAnswer(again.faults)
               else if PayloadOf(again) == PayloadOf(first) then Replied(answer.status, answer.body, true)
               else IdempotencyConflict
  {
    var next := Step(l, first);
    TransferStep(l, first);
    CanonicalPayload.EncodeInjective(PayloadOf(first), PayloadOf(again));
    StoredLastsOverRun(next, cs, first.sender, first.key);
    var later := Run(next, cs);
    StoredLasts(later, again, first.sender, first.key);
    if again.ByName? {
      var payload := CanonicalPayload.CanonicalByName(again.name, again.cents);
      AnsweredTransfer(later, again.users, again.sender, again.name, again.cents, again.key, payload, again.faults);
    } else {
      TransferStep(later, again);
    }
  }

  /** Four retryable failures leave every row as it was and answer TransferUnavailable; fewer are
      invisible: the answer is that of the first attempt that runs. */
  lemma RetriesAreInvisible(l: Tables, users: seq<User>, senderUser: nat, name: string, cents: nat, key: nat, payload: string,
                            faults: seq<Fault>)
    requires |faults| == 4
    ensures var (after, outcome) := Transfer(l, users, senderUser, name, cents, key, payload, faults, 0);
            if forall i :: 0 <= i < 4 ==> faults[i].Retryable? then after == l && outcome == TransferUnavailable
            else
              exists i :: 0 <= i < 4 && !faults[i].Retryable? && (forall h :: 0 <= h < i ==> faults[h].Retryable?)
                && (after, outcome) == (if faults[i].NoFault? then ExecuteOnce(l, users, senderUser, name, cents, key, payload)
                                        else (l, Failed))
  {
    var i := AttemptsUntil(l, users, senderUser, name, cents, key, payload, faults, 0);
  }

  // ---------- Room transfers notify both parties ----------

  predicate IsFresh201(outcome: Outcome) {
    outcome.Replied? && outcome.status == 201 && !outcome.replayed
  }

  function PeerOf(conversation: Conversation, senderUser: nat): nat {
    if senderUser == conversation.seller then conversation.buyer else conversation.seller
  }

  /** The room command after its own checks: the named transfer, then the two notices. */
  lemma RoomTransferShape(l: Tables, c: Command)
    requires WellFormed(c) && c.ByRoom?
    ensures var (after, outcome) := Reply(l, c);
            if IsFresh201(outcome) then
              && c.room in c.rooms
              && (var peer := PeerOf(c.rooms[c.room], c.sender);
                  && peer < |c.users|
                  && (var payload := CanonicalPayload.CanonicalByRoom(c.room, c.cents);
                      var inner := Transfer(l, c.users, c.sender, c.users[peer].username, c.cents, c.key, payload, c.faults, 0);
                      && inner.1 == outcome && outcome.body.Receipt?
                      && NotifyBoth(inner.0, c.users, c.sender, peer, outcome.body.transfer) == Some(after)))
            else after.notices == l.notices
  {
    if FindAccount(l.accounts, c.sender).Some? && c.room in c.rooms {
      var peer := PeerOf(c.rooms[c.room], c.sender);
      if peer < |c.users| {
        var name := c.users[peer].username;
        var payload := CanonicalPayload.CanonicalByRoom(c.room, c.cents);
        TransferIsOneExecution(l, c.users, c.sender, name, c.cents, c.key, payload, c.faults, 0);
        FreshReceipt(l, c.users, c.sender, name, c.cents, c.key, payload);
      }
    }
  }

  /** In a reachable state a fresh 201 answer to a room transfer adds exactly two notices, one for
      each party of the room, both for the new transfer; every other answer adds none. */
  lemma RoomTransferNotifiesBoth(l: Tables, c: Command)
    requires Inv(l) && WellFormed(c) && c.ByRoom?
    ensures var (after, outcome) := Reply(l, c);
            if IsFresh201(outcome) then
              && c.room in c.rooms
              && (var (peer, t) := (PeerOf(c.rooms[c.room], c.sender), |l.transfers|);
                  && after.notices == l.notices + {Notice(c.sender, true, t), Notice(peer, false, t)}
                  && |after.notices| == |l.notices| + 2
                  && |after.transfers| == t + 1)
            else after.notices == l.notices
  {
    RoomTransferShape(l, c);
    var (after, outcome) := Reply(l, c);
    if IsFresh201(outcome) {
      var peer := PeerOf(c.rooms[c.room], c.sender);
      var name := c.users[peer].username;
      var payload := CanonicalPayload.CanonicalByRoom(c.room, c.cents);
      TransferIsOneExecution(l, c.users, c.sender, name, c.cents, c.key, payload, c.faults, 0);
      FreshReceipt(l, c.users, c.sender, name, c.cents, c.key, payload);
      var added := {Notice(c.sender, true, |l.transfers|), Notice(peer, false, |l.transfers|)};
      assert l.notices !! added;
      assert |added| == 2;
    }
  }
}

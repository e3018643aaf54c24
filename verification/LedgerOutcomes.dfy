/** What a transfer, a room transfer, a closing and a seeding answer and change, told from the rows alone
    (src/apps/transfers/services.py:79-272). */
module LedgerOutcomes {
  import opened Base
  import opened Accounts
  import opened Ledger
  import opened LedgerInvariant
  import CanonicalPayload

  /** Active, not withdrawn, and under no dormancy action that covers the present, released or not. */
  predicate InGoodStanding(users: seq<User>, id: nat) {
    id < |users| && users[id].isActive && !users[id].withdrawn && !users[id].sanctioned
  }

  /** payer and payee are two users with the accounts from and to. */
  predicate CanPay(l: Tables, users: seq<User>, payer: nat, from: nat, payee: nat, to: nat, cents: nat)
    requires from < |l.accounts| && to < |l.accounts|
  {
    && payer != payee
    && InGoodStanding(users, payer) && InGoodStanding(users, payee)
    && l.accounts[from].isOpen && l.accounts[to].isOpen
    && l.accounts[from].balance >= cents
    && l.accounts[to].balance + cents <= 100_000_000_000
  }

  /** The user of a name, with an account that can be paid. */
  predicate CanPayName(l: Tables, users: seq<User>, payer: nat, from: nat, name: string, cents: nat)
    requires from < |l.accounts|
  {
    var payee := FindUser(users, name);
    payee.Some? && FindAccount(l.accounts, payee.value).Some? &&
    CanPay(l, users, payer, from, payee.value, FindAccount(l.accounts, payee.value).value, cents)
  }

  /** The tables after a payment: two balances, and one row each for journal, transfer and answer. */
  predicate Paid(l: Tables, after: Tables, from: nat, to: nat, cents: nat, key: nat, payload: string, body: Body)
    requires from < |l.accounts| && to < |l.accounts|
  {
    var t := |l.transfers|;
    && |after.accounts| == |l.accounts|
    && (forall a :: 0 <= a < |l.accounts| ==>
          && after.accounts[a].user == l.accounts[a].user && after.accounts[a].isOpen == l.accounts[a].isOpen
          && after.accounts[a].balance == l.accounts[a].balance - (if a == from then cents else 0) + (if a == to then cents else 0))
    && after.journals == l.journals + [TransferJournal]
    && after.entries == l.entries + [Entry(|l.journals|, Owner(from), 0 - cents), Entry(|l.journals|, Owner(to), cents)]
    && after.transfers == l.transfers + [TransferRow(from, to, |l.journals|, cents)]
    && after.requests == l.requests[(from, key) := Request(payload, 201, body, Some(t))]
    && body.Receipt? && body.transfer == t && body.amount == cents && body.senderBalance == l.accounts[from].balance - cents
    && after.safety == l.safety && after.notices == l.notices
  }

  /** A denial stores its answer and nothing else. */
  predicate Denied(l: Tables, after: Tables, outcome: Outcome, from: nat, key: nat, payload: string) {
    && outcome == Replied(422, Denial, false)
    && after == l.(requests := l.requests[(from, key) := Request(payload, 422, Denial, None)])
  }

  /** A first request under OPEN is paid exactly when both parties and both accounts allow it; otherwise it
      is denied. */
  lemma FirstRequest(l: Tables, users: seq<User>, payer: nat, name: string, cents: nat, key: nat, payload: string)
    requires FindAccount(l.accounts, payer).Some? && (FindAccount(l.accounts, payer).value, key) !in l.requests && l.safety.Open?
    ensures var (after, outcome) := ExecuteOnce(l, users, payer, name, cents, key, payload);
            var from := FindAccount(l.accounts, payer).value;
            if CanPayName(l, users, payer, from, name, cents) then
              && outcome.Replied? && outcome.status == 201 && !outcome.replayed
              && outcome.body == Receipt(|l.transfers|, name, cents, l.accounts[from].balance - cents)
              && Paid(l, after, from, FindAccount(l.accounts, FindUser(users, name).value).value, cents, key, payload, outcome.body)
            else Denied(l, after, outcome, from, key, payload)
  {
    var from := FindAccount(l.accounts, payer).value;
    var payee := FindUser(users, name);
    if payee.Some? && payee.value != payer && FindAccount(l.accounts, payee.value).Some? {
      var to := FindAccount(l.accounts, payee.value).value;
      assert Permitted(l, users, from, to, cents) <==> CanPay(l, users, payer, from, payee.value, to, cents);
    }
  }

  /** Any other request: no account or safety row is an error, a block refuses, a used key replays; nothing
      changes. */
  lemma OtherRequests(l: Tables, users: seq<User>, payer: nat, name: string, cents: nat, key: nat, payload: string)
    requires var found := FindAccount(l.accounts, payer); found.None? || (found.value, key) in l.requests || !l.safety.Open?
    ensures var (after, outcome) := ExecuteOnce(l, users, payer, name, cents, key, payload);
            var found := FindAccount(l.accounts, payer);
            && after == l
            && outcome ==
               if found.None? then Failed
               else if (found.value, key) in l.requests then
                 var stored := l.requests[(found.value, key)];
                 if stored.payload == payload then Replied(stored.status, stored.body, true) else IdempotencyConflict
               else if l.safety.Absent? then Failed else TransferUnavailable
  {
  }

  // ---------- Rooms ----------

  /** The other party of a product room that the payer belongs to. */
  function Peer(rooms: map<nat, Conversation>, room: nat, payer: nat): Option<nat> {
    if room !in rooms || !rooms[room].isProductRoom then None
    else if payer == rooms[room].seller then Some(rooms[room].buyer)
    else if payer == rooms[room].buyer then Some(rooms[room].seller)
    else None
  }

  /** Notices after a payment in a room: one for the payer, one for the peer, both about the new transfer. */
  predicate Notified(l: Tables, after: Tables, payer: nat, peer: nat) {
    after.notices == l.notices + {Notice(payer, true, |l.transfers|), Notice(peer, false, |l.transfers|)}
  }

  /** A first request through a room that is no product room of the payer is denied, blocked or not. */
  lemma RoomRefusesOutsiders(l: Tables, users: seq<User>, rooms: map<nat, Conversation>, payer: nat, room: nat, cents: nat, key: nat,
                             faults: seq<Fault>)
    requires |faults| == 4 && Peer(rooms, room, payer).None?
    requires FindAccount(l.accounts, payer).Some? && (FindAccount(l.accounts, payer).value, key) !in l.requests
    ensures var (after, outcome) := TransferForRoom(l, users, rooms, payer, room, cents, key, faults);
            Denied(l, after, outcome, FindAccount(l.accounts, payer).value, key, CanonicalPayload.CanonicalByRoom(room, cents))
  {
  }

  /** A first request through a product room of the payer, under OPEN and without database faults, pays the
      other party exactly when a payment to that user is possible, and then notifies both. */
  lemma RoomPaysThePeer(l: Tables, users: seq<User>, rooms: map<nat, Conversation>, payer: nat, room: nat, cents: nat, key: nat,
                        faults: seq<Fault>)
    requires |faults| == 4 && faults[0].NoFault? && l.safety.Open?
    requires FindAccount(l.accounts, payer).Some? && (FindAccount(l.accounts, payer).value, key) !in l.requests
    requires Peer(rooms, room, payer).Some? && Peer(rooms, room, payer).value < |users|
    requires FindUser(users, users[Peer(rooms, room, payer).value].username) == Peer(rooms, room, payer)
    ensures var (after, outcome) := TransferForRoom(l, users, rooms, payer, room, cents, key, faults);
            var (from, peer, payload) := (FindAccount(l.accounts, payer).value, Peer(rooms, room, payer).value, CanonicalPayload.CanonicalByRoom(room, cents));
            var to := FindAccount(l.accounts, peer);
            if to.Some? && CanPay(l, users, payer, from, peer, to.value, cents) then
              && outcome.Replied? && outcome.status == 201 && !outcome.replayed
              && Paid(l, after.(notices := l.notices), from, to.value, cents, key, payload, outcome.body)
              && Notified(l, after, payer, peer)
            else Denied(l, after, outcome, from, key, payload)
  {
    var peer := Peer(rooms, room, payer).value;
    var payload := CanonicalPayload.CanonicalByRoom(room, cents);
    FirstRequest(l, users, payer, users[peer].username, cents, key, payload);
    assert Transfer(l, users, payer, users[peer].username, cents, key, payload, faults, 0)
        == ExecuteOnce(l, users, payer, users[peer].username, cents, key, payload);
  }

  // ---------- Seeding and closing ----------

  /** A user without an account gets one with 100,000.00, open, after all others; otherwise nothing happens. */
  lemma SeedOutcome(l: Tables, user: nat)
    ensures var (after, i) := EnsureAccount(l, user);
            match FindAccount(l.accounts, user)
            case Some(a) => after == l && i == a
            case None =>
              && i == |l.accounts| && after.accounts == l.accounts + [Account(user, 10_000_000, true)]
              && after.journals == l.journals + [SeedIssue(i)]
              && after.entries == l.entries + [Entry(|l.journals|, Owner(i), 10_000_000), Entry(|l.journals|, SeedReserve, -10_000_000)]
              && after.transfers == l.transfers && after.requests == l.requests && after.notices == l.notices
              && after.safety == if l.safety.Absent? then Open else l.safety
  {
  }

  /** Closing closes exactly an open account at zero, and only that one; a user without an account would
      be seeded first and so is never empty. */
  lemma CloseOutcome(l: Tables, user: nat)
    ensures var (after, outcome) := CloseAccount(l, user);
            var found := FindAccount(l.accounts, user);
            && (outcome.Unavailable? <==> l.safety.Blocked?)
            && (outcome.ClosedNow? <==>
                  !l.safety.Blocked? && found.Some? && l.accounts[found.value].isOpen && l.accounts[found.value].balance == 0)
            && (outcome.AlreadyClosed? <==> !l.safety.Blocked? && found.Some? && !l.accounts[found.value].isOpen)
            && (outcome.ClosedNow? ==>
                  |after.accounts| == |l.accounts| &&
                  forall a :: 0 <= a < |l.accounts| ==>
                    after.accounts[a] == if a == found.value then Account(user, 0, false) else l.accounts[a])
            && (!outcome.ClosedNow? ==> after.accounts == l.accounts)
            && after.journals == l.journals && after.entries == l.entries && after.transfers == l.transfers && after.requests == l.requests
  {
  }

  // ---------- Reconciliation ----------

  predicate JournalOk(l: Tables, j: nat) {
    JournalCount(l.entries, j) == 2 && JournalTotal(l.entries, j) == 0
  }

  predicate AccountOk(l: Tables, a: nat) {
    a < |l.accounts| && AccountTotal(l.entries, Owner(a)) == l.accounts[a].balance
  }

  lemma {:induction false} BadJournalsAre(l: Tables, n: nat)
    requires n <= |l.journals|
    ensures forall m :: m in BadJournals(l, n) <==> m.BadJournal? && m.journal < n && !JournalOk(l, m.journal)
  {
    if n > 0 {
      BadJournalsAre(l, n - 1);
    }
  }

  lemma {:induction false} BadAccountsAre(l: Tables, n: nat)
    requires n <= |l.accounts|
    ensures forall m :: m in BadAccounts(l, n) <==> m.BadAccount? && m.account < n && !AccountOk(l, m.account)
  {
    if n > 0 {
      BadAccountsAre(l, n - 1);
    }
  }

  /** The report names exactly the journals that do not balance and the accounts that disagree. */
  lemma ReportNamesMismatches(l: Tables, m: Mismatch)
    ensures m in Mismatches(l) <==>
              match m
              case BadJournal(j) => j < |l.journals| && !JournalOk(l, j)
              case BadAccount(a) => a < |l.accounts| && !AccountOk(l, a)
  {
    BadJournalsAre(l, |l.journals|);
    BadAccountsAre(l, |l.accounts|);
  }

  /** Every journal balances and every account agrees. */
  ghost predicate Sound(l: Tables) {
    && (forall j: nat :: j < |l.journals| ==> JournalOk(l, j))
    && (forall a: nat :: a < |l.accounts| ==> AccountOk(l, a))
  }

  lemma SoundIff(l: Tables)
    ensures Sound(l) <==> Mismatches(l) == []
  {
    if Mismatches(l) != [] {
      ReportNamesMismatches(l, Mismatches(l)[0]);
    }
    if !Sound(l) {
      if j: nat :| j < |l.journals| && !JournalOk(l, j) {
        ReportNamesMismatches(l, BadJournal(j));
      } else {
        var a: nat :| a < |l.accounts| && !AccountOk(l, a);
        ReportNamesMismatches(l, BadAccount(a));
      }
    }
  }

  /** A check is clean exactly on sound tables and otherwise reports the block in force or a new incident; a
      resume works exactly for the maintainer, with the incident of the block in force, on sound tables. The
      safety row is the only one that changes. */
  lemma ReconcileOutcome(l: Tables, resume: Option<nat>, maintainer: bool, newIncident: nat)
    ensures var (after, verdict) := Reconcile(l, resume, maintainer, newIncident);
            && after == l.(safety := after.safety)
            && (match resume
                case None =>
                  if Sound(l) then verdict == Clean && after.safety == (if l.safety.Absent? then Open else l.safety)
                  else verdict == BlockedError(if l.safety.Blocked? then l.safety.incident else newIncident) && after == l
                case Some(incident) =>
                  if maintainer && l.safety == Blocked(incident) && Sound(l) then verdict == Resumed && after.safety == Open
                  else verdict == ResumeError && after == l)
  {
    SoundIff(l);
    SoundIff(l.(safety := Open));
    assert Sound(l.(safety := Open)) <==> Sound(l) by {
      SameReport(l, l.(safety := Open));
    }
  }

  lemma SameReport(l: Tables, after: Tables)
    requires after.journals == l.journals && after.entries == l.entries && after.accounts == l.accounts
    ensures Sound(after) <==> Sound(l)
  {
    assert forall j: nat :: JournalOk(after, j) <==> JournalOk(l, j);
    assert forall a: nat :: AccountOk(after, a) <==> AccountOk(l, a);
  }
}

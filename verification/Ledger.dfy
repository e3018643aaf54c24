/** The double-entry mock ledger (src/apps/transfers/services.py): seeding, transfers by name and
    by product room, account closing and reconciliation, each as one committed transaction on the
    ledger tables. Amounts are integer cents. Account, journal and transfer keys are positions in
    their tables; an idempotency key is a number. */
module Ledger {
  import opened Base
  import opened Accounts
  import CanonicalPayload

  const SEED_AMOUNT: int := 10_000_000
  const MAX_BALANCE: int := 100_000_000_000

  datatype Account = Account(user: nat, balance: int, isOpen: bool)
  datatype LedgerAccount = SeedReserve | Owner(account: nat)
  datatype Journal = SeedIssue(target: nat) | TransferJournal
  datatype Entry = Entry(journal: nat, account: LedgerAccount, amount: int)
  datatype TransferRow = TransferRow(sender: nat, recipient: nat, journal: nat, amount: nat)
  datatype Body = Denial | Receipt(transfer: nat, recipient: string, amount: nat, senderBalance: int)
  datatype Request = Request(payload: string, status: int, body: Body, transfer: Option<nat>)
  datatype Safety = Absent | Open | Blocked(incident: nat)
  datatype Notice = Notice(recipient: nat, sent: bool, transfer: nat)

  datatype Tables = Tables(
    accounts: seq<Account>,
    journals: seq<Journal>,
    entries: seq<Entry>,
    transfers: seq<TransferRow>,
    requests: map<(nat, nat), Request>,
    safety: Safety,
    notices: set<Notice>)

  const EMPTY := Tables([], [], [], [], map[], Absent, {})

  datatype Outcome =
    | Replied(status: int, body: Body, replayed: bool)
    | IdempotencyConflict
    | TransferUnavailable
    | Failed

  /** What the database does to one attempt: nothing, SQLSTATE 40001 or 40P01, another error. */
  datatype Fault = NoFault | Retryable | OtherError

  datatype Conversation = Conversation(isProductRoom: bool, seller: nat, buyer: nat)

  // ---------- Lookups ----------

  function FindAccount(accounts: seq<Account>, user: nat): (r: Option<nat>)
    ensures r.Some? ==> r.value < |accounts| && accounts[r.value].user == user
    ensures r.None? ==> forall i :: 0 <= i < |accounts| ==> accounts[i].user != user
  {
    if accounts == [] then None
    else
      var n := |accounts| - 1;
      match FindAccount(accounts[..n], user)
      case Some(i) => Some(i)
      case None => if accounts[n].user == user then Some(n) else None
  }

  ghost predicate ExtendsUsers(before: seq<Account>, after: seq<Account>) {
    && |before| <= |after|
    && forall i :: 0 <= i < |before| ==> after[i].user == before[i].user
  }

  /** Account rows keep their place and their user, so a lookup that succeeded never moves. */
  lemma {:induction false} FindAccountStable(before: seq<Account>, after: seq<Account>, user: nat)
    requires ExtendsUsers(before, after)
    requires FindAccount(before, user).Some?
    ensures FindAccount(after, user) == FindAccount(before, user)
  {
    if |after| > |before| {
      FindAccountStable(before, after[..|after| - 1], user);
    } else {
      var n := |before| - 1;
      if FindAccount(before[..n], user).Some? {
        FindAccountStable(before[..n], after[..n], user);
      } else {
        assert after[n].user == user;
        assert forall i :: 0 <= i < n ==> before[..n][i].user == after[i].user;
      }
    }
  }

  // ---------- Entry totals ----------

  function JournalTotal(entries: seq<Entry>, journal: nat): int {
    if entries == [] then 0
    else
      var last := entries[|entries| - 1];
      JournalTotal(entries[..|entries| - 1], journal) + (if last.journal == journal then last.amount else 0)
  }

  function JournalCount(entries: seq<Entry>, journal: nat): nat {
    if entries == [] then 0
    else
      var last := entries[|entries| - 1];
      JournalCount(entries[..|entries| - 1], journal) + (if last.journal == journal then 1 else 0)
  }

  function AccountTotal(entries: seq<Entry>, account: LedgerAccount): int {
    if entries == [] then 0
    else
      var last := entries[|entries| - 1];
      AccountTotal(entries[..|entries| - 1], account) + (if last.account == account then last.amount else 0)
  }

  lemma TotalsAppend(entries: seq<Entry>, e: Entry)
    ensures forall j: nat :: JournalTotal(entries + [e], j) == JournalTotal(entries, j) + (if e.journal == j then e.amount else 0)
    ensures forall j: nat :: JournalCount(entries + [e], j) == JournalCount(entries, j) + (if e.journal == j then 1 else 0)
    ensures forall a :: AccountTotal(entries + [e], a) == AccountTotal(entries, a) + (if e.account == a then e.amount else 0)
  {
    assert (entries + [e])[..|entries|] == entries;
  }

  /** The effect of inserting the two entries of one journal. */
  lemma TotalsAppendPair(entries: seq<Entry>, d: Entry, e: Entry)
    requires d.journal == e.journal && d.account != e.account
    ensures forall j: nat :: JournalTotal(entries + [d, e], j) == JournalTotal(entries, j) + (if d.journal == j then d.amount + e.amount else 0)
    ensures forall j: nat :: JournalCount(entries + [d, e], j) == JournalCount(entries, j) + (if d.journal == j then 2 else 0)
    ensures forall a ::
              AccountTotal(entries + [d, e], a)
              == AccountTotal(entries, a) + (if d.account == a then d.amount else if e.account == a then e.amount else 0)
  {
    TotalsAppend(entries, d);
    TotalsAppend(entries + [d], e);
    assert entries + [d] + [e] == entries + [d, e];
  }

  lemma {:induction false} UnusedJournal(entries: seq<Entry>, journal: nat)
    requires forall i :: 0 <= i < |entries| ==> entries[i].journal != journal
    ensures JournalTotal(entries, journal) == 0 && JournalCount(entries, journal) == 0
  {
    if entries != [] {
      UnusedJournal(entries[..|entries| - 1], journal);
    }
  }

  lemma {:induction false} UnusedAccount(entries: seq<Entry>, account: LedgerAccount)
    requires forall i :: 0 <= i < |entries| ==> entries[i].account != account
    ensures AccountTotal(entries, account) == 0
  {
    if entries != [] {
      UnusedAccount(entries[..|entries| - 1], account);
    }
  }

  function Balances(accounts: seq<Account>): seq<int> {
    seq(|accounts|, i requires 0 <= i < |accounts| => accounts[i].balance)
  }

  /** What account a received minus what it sent, over the transfer rows. */
  function Net(transfers: seq<TransferRow>, a: nat): int {
    if transfers == [] then 0
    else
      var last := transfers[|transfers| - 1];
      Net(transfers[..|transfers| - 1], a)
      + (if last.recipient == a then last.amount else 0)
      - (if last.sender == a then last.amount else 0)
  }

  lemma NetAppend(transfers: seq<TransferRow>, t: TransferRow)
    ensures forall a: nat ::
              Net(transfers + [t], a)
              == Net(transfers, a) + (if t.recipient == a then t.amount else 0) - (if t.sender == a then t.amount else 0)
  {
    assert (transfers + [t])[..|transfers|] == transfers;
  }

  lemma {:induction false} NetUnused(transfers: seq<TransferRow>, a: nat)
    requires forall i :: 0 <= i < |transfers| ==> transfers[i].sender != a && transfers[i].recipient != a
    ensures Net(transfers, a) == 0
  {
    if transfers != [] {
      NetUnused(transfers[..|transfers| - 1], a);
    }
  }

  // ---------- Commands ----------

  function EnsureAccount(l: Tables, user: nat): (r: (Tables, nat))
    ensures r.1 < |r.0.accounts| && r.0.accounts[r.1].user == user
  {
    match FindAccount(l.accounts, user)
    case Some(i) => (l, i)
    case None =>
      var (a, j) := (|l.accounts|, |l.journals|);
      (l.(accounts := l.accounts + [Account(user, SEED_AMOUNT, true)],
          journals := l.journals + [SeedIssue(a)],
          entries := l.entries + [Entry(j, Owner(a), SEED_AMOUNT), Entry(j, SeedReserve, -SEED_AMOUNT)],
          safety := if l.safety.Absent? then Open else l.safety),
       a)
  }

  function StoreDenial(l: Tables, sender: nat, key: nat, payload: string): (Tables, Outcome) {
    (l.(requests := l.requests[(sender, key) := Request(payload, 422, Denial, None)]), Replied(422, Denial, false))
  }

  /** The rows a successful transfer writes. */
  function Post(l: Tables, sender: nat, recipient: nat, name: string, cents: nat, key: nat, payload: string): (Tables, Outcome)
    requires sender < |l.accounts| && recipient < |l.accounts|
  {
    var debited := l.accounts[sender := l.accounts[sender].(balance := l.accounts[sender].balance - cents)];
    var credited := debited[recipient := debited[recipient].(balance := debited[recipient].balance + cents)];
    var (j, t) := (|l.journals|, |l.transfers|);
    var body := Receipt(t, name, cents, credited[sender].balance);
    (l.(accounts := credited,
        journals := l.journals + [TransferJournal],
        entries := l.entries + [Entry(j, Owner(sender), -(cents as int)), Entry(j, Owner(recipient), cents)],
        transfers := l.transfers + [TransferRow(sender, recipient, j, cents)],
        requests := l.requests[(sender, key) := Request(payload, 201, body, Some(t))]),
     Replied(201, body, false))
  }

  function Replay(previous: Request, payload: string): Outcome {
    if previous.payload != payload then IdempotencyConflict
    else Replied(previous.status, previous.body, true)
  }

  predicate Permitted(l: Tables, users: seq<User>, sender: nat, recipient: nat, cents: nat)
    requires sender < |l.accounts| && recipient < |l.accounts|
  {
    && l.accounts[sender].isOpen
    && l.accounts[recipient].isOpen
    && MayTransfer(users, l.accounts[sender].user)
    && MayTransfer(users, l.accounts[recipient].user)
    && l.accounts[sender].balance >= cents
    && l.accounts[recipient].balance + cents <= MAX_BALANCE
  }

  function ExecuteOnce(l: Tables, users: seq<User>, senderUser: nat, name: string, cents: nat, key: nat, payload: string): (Tables, Outcome) {
    match FindAccount(l.accounts, senderUser)
    case None => (l, Failed)
    case Some(sender) =>
      if (sender, key) in l.requests then (l, Replay(l.requests[(sender, key)], payload))
      else if l.safety.Absent? then (l, Failed)
      else if l.safety.Blocked? then (l, TransferUnavailable)
      else
        match FindUser(users, name)
        case None => StoreDenial(l, sender, key, payload)
        case Some(recipientUser) =>
          if recipientUser == senderUser then StoreDenial(l, sender, key, payload)
          else
            match FindAccount(l.accounts, recipientUser)
            case None => StoreDenial(l, sender, key, payload)
            case Some(recipient) =>
              if Permitted(l, users, sender, recipient, cents) then Post(l, sender, recipient, name, cents, key, payload)
              else StoreDenial(l, sender, key, payload)
  }

  /** The retry loop, from a given attempt on; a failed attempt is rolled back. */
  function Transfer(l: Tables, users: seq<User>, senderUser: nat, name: string, cents: nat, key: nat, payload: string,
                    faults: seq<Fault>, attempt: nat): (Tables, Outcome)
    requires |faults| == 4 && attempt < 4
    decreases 4 - attempt
  {
    match faults[attempt]
    case NoFault => ExecuteOnce(l, users, senderUser, name, cents, key, payload)
    case OtherError => (l, Failed)
    case Retryable =>
      if attempt == 3 then (l, TransferUnavailable)
      else Transfer(l, users, senderUser, name, cents, key, payload, faults, attempt + 1)
  }

  function NotifyBoth(l: Tables, users: seq<User>, sender: nat, recipient: nat, transfer: nat): Option<Tables> {
    if IsLive(users, sender) && IsLive(users, recipient) then
      Some(l.(notices := l.notices + {Notice(sender, true, transfer), Notice(recipient, false, transfer)}))
    else
      None
  }

  function TransferForRoom(l: Tables, users: seq<User>, rooms: map<nat, Conversation>, senderUser: nat, room: nat, cents: nat, key: nat,
                           faults: seq<Fault>): (Tables, Outcome)
    requires |faults| == 4
  {
    match FindAccount(l.accounts, senderUser)
    case None => (l, Failed)
    case Some(sender) =>
      var payload := CanonicalPayload.CanonicalByRoom(room, cents);
      if (sender, key) in l.requests then (l, Replay(l.requests[(sender, key)], payload))
      else if room !in rooms || !rooms[room].isProductRoom then StoreDenial(l, sender, key, payload)
      else if senderUser != rooms[room].seller && senderUser != rooms[room].buyer then StoreDenial(l, sender, key, payload)
      else
        var peer := if senderUser == rooms[room].seller then rooms[room].buyer else rooms[room].seller;
        if peer >= |users| then (l, Failed)
        else
          var (after, outcome) := Transfer(l, users, senderUser, users[peer].username, cents, key, payload, faults, 0);
          if outcome.Replied? && outcome.status == 201 && !outcome.replayed && outcome.body.Receipt? then
            match NotifyBoth(after, users, senderUser, peer, outcome.body.transfer)
            case Some(notified) => (notified, outcome)
            case None => (l, Failed)
          else if outcome.Replied? then (after, outcome)
          else (l, outcome)
  }

  datatype Closing = ClosedNow | AlreadyClosed | NotEmpty | Unavailable

  function CloseAccount(l: Tables, user: nat): (Tables, Closing) {
    if l.safety.Blocked? then (l, Unavailable)
    else
      var ready := l.(safety := Open);
      var (seeded, i) := EnsureAccount(ready, user);
      if !seeded.accounts[i].isOpen then (seeded, AlreadyClosed)
      else if seeded.accounts[i].balance != 0 then (l, NotEmpty)
      else (seeded.(accounts := seeded.accounts[i := seeded.accounts[i].(isOpen := false)]), ClosedNow)
  }

  /** The account part of a withdrawal: an empty account is closed. */
  function CloseEmpty(l: Tables, i: nat): Tables
    requires i < |l.accounts|
  {
    if l.accounts[i].balance != 0 then l
    else l.(accounts := l.accounts[i := l.accounts[i].(isOpen := false)])
  }

  // ---------- Reconciliation ----------

  datatype Mismatch = BadJournal(journal: nat) | BadAccount(account: nat)

  predicate Balanced(l: Tables, j: nat) {
    JournalCount(l.entries, j) == 2 && JournalTotal(l.entries, j) == 0
  }

  predicate Agrees(l: Tables, i: nat)
    requires i < |l.accounts|
  {
    AccountTotal(l.entries, Owner(i)) == l.accounts[i].balance
  }

  function BadJournals(l: Tables, n: nat): seq<Mismatch>
    requires n <= |l.journals|
  {
    if n == 0 then [] else BadJournals(l, n - 1) + (if Balanced(l, n - 1) then [] else [BadJournal(n - 1)])
  }

  function BadAccounts(l: Tables, n: nat): seq<Mismatch>
    requires n <= |l.accounts|
  {
    if n == 0 then [] else BadAccounts(l, n - 1) + (if Agrees(l, n - 1) then [] else [BadAccount(n - 1)])
  }

  function Mismatches(l: Tables): seq<Mismatch> {
    BadJournals(l, |l.journals|) + BadAccounts(l, |l.accounts|)
  }

  datatype Verdict = Clean | Resumed | BlockedError(incident: nat) | ResumeError

  /** One run of the reconcile command. An exception leaves its transaction, so it undoes the
      state change that the command made before raising it. */
  function Reconcile(l: Tables, resume: Option<nat>, maintainer: bool, newIncident: nat): (Tables, Verdict) {
    var ready := if l.safety.Absent? then l.(safety := Open) else l;
    match resume
    case Some(incident) =>
      if !maintainer || ready.safety != Blocked(incident) || Mismatches(ready) != [] then (l, ResumeError)
      else (ready.(safety := Open), Resumed)
    case None =>
      if Mismatches(ready) == [] then (ready, Clean)
      else if ready.safety.Open? then (l, BlockedError(newIncident))
      else (l, BlockedError(ready.safety.incident))
  }
}

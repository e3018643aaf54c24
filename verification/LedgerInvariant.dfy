/** What every run of the ledger commands keeps. */
module LedgerInvariant {
  import opened Base
  import opened Accounts
  import opened Ledger
  import CanonicalPayload

  /** One committed transaction. Each carries the user and conversation rows it happens to see,
      so a run may change those in any way between two commands. */
  datatype Command =
    | Seed(user: nat)
    | ByName(users: seq<User>, sender: nat, name: string, cents: nat, key: nat, faults: seq<Fault>)
    | ByRoom(users: seq<User>, rooms: map<nat, Conversation>, sender: nat, room: nat, cents: nat, key: nat, faults: seq<Fault>)
    | Close(user: nat)
    | Withdraw(account: nat)
    | Check(resume: Option<nat>, maintainer: bool, incident: nat)

  /** The bounds the request parser puts on a transfer, and the four attempts of the retry loop. */
  predicate WellFormed(c: Command) {
    match c
    case ByName(_, _, _, cents, _, faults) => cents > 0 && |faults| == 4
    case ByRoom(_, _, _, _, cents, _, faults) => cents > 0 && |faults| == 4
    case _ => true
  }

  predicate IsTransfer(c: Command) {
    c.ByName? || c.ByRoom?
  }

  /** Both entry points, each with its own canonical text. */
  function Reply(l: Tables, c: Command): (Tables, Outcome)
    requires WellFormed(c) && IsTransfer(c)
  {
    match c
    case ByName(users, sender, name, cents, key, faults) =>
      Transfer(l, users, sender, name, cents, key, CanonicalPayload.CanonicalByName(name, cents), faults, 0)
    case ByRoom(users, rooms, sender, room, cents, key, faults) =>
      TransferForRoom(l, users, rooms, sender, room, cents, key, faults)
  }

  function Step(l: Tables, c: Command): Tables
    requires WellFormed(c)
  {
    match c
    case Seed(user) => EnsureAccount(l, user).0
    case ByName(_, _, _, _, _, _) => Reply(l, c).0
    case ByRoom(_, _, _, _, _, _, _) => Reply(l, c).0
    case Close(user) => CloseAccount(l, user).0
    case Withdraw(account) => if account < |l.accounts| then CloseEmpty(l, account) else l
    case Check(resume, maintainer, incident) => Reconcile(l, resume, maintainer, incident).0
  }

  ghost predicate AllWellFormed(cs: seq<Command>) {
    forall i :: 0 <= i < |cs| ==> WellFormed(cs[i])
  }

  ghost function Run(l: Tables, cs: seq<Command>): Tables
    requires AllWellFormed(cs)
  {
    if cs == [] then l else Step(Run(l, cs[..|cs| - 1]), cs[|cs| - 1])
  }

  // ---------- The invariant ----------

  ghost predicate ForeignKeys(l: Tables) {
    && (forall i :: 0 <= i < |l.entries| ==>
          && l.entries[i].journal < |l.journals|
          && (l.entries[i].account.Owner? ==> l.entries[i].account.account < |l.accounts|))
    && (forall i :: 0 <= i < |l.transfers| ==>
          l.transfers[i].sender < |l.accounts| && l.transfers[i].recipient < |l.accounts|)
  }

  ghost predicate Books(l: Tables) {
    && (forall j: nat :: j < |l.journals| ==> JournalCount(l.entries, j) == 2 && JournalTotal(l.entries, j) == 0)
    && (forall i: nat :: i < |l.accounts| ==> AccountTotal(l.entries, Owner(i)) == l.accounts[i].balance)
    && AccountTotal(l.entries, SeedReserve) == -SEED_AMOUNT * |l.accounts|
  }

  ghost predicate Accounting(l: Tables) {
    && (forall i: nat :: i < |l.accounts| ==> 0 <= l.accounts[i].balance <= MAX_BALANCE)
    && (forall i: nat :: i < |l.accounts| ==> l.accounts[i].balance == SEED_AMOUNT + Net(l.transfers, i))
    && Sum(Balances(l.accounts)) == SEED_AMOUNT * |l.accounts|
    && (forall i, j :: 0 <= i < j < |l.accounts| ==> l.accounts[i].user != l.accounts[j].user)
    && (|l.accounts| > 0 ==> !l.safety.Absent?)
  }

  ghost predicate Recorded(requests: map<(nat, nat), Request>, t: nat) {
    exists k :: k in requests && requests[k].transfer == Some(t)
  }

  /** Stored answers and transfer rows name each other one to one. */
  ghost predicate Answered(l: Tables) {
    && (forall k :: k in l.requests ==>
          match l.requests[k].transfer
          case None => l.requests[k].status == 422 && l.requests[k].body == Denial
          case Some(t) =>
            && t < |l.transfers|
            && l.requests[k].status == 201
            && l.requests[k].body.Receipt? && l.requests[k].body.transfer == t
            && l.requests[k].body.amount == l.transfers[t].amount
            && l.transfers[t].sender == k.0)
    && (forall k, k' ::
          k in l.requests && k' in l.requests && l.requests[k].transfer.Some? && k != k' ==>
          l.requests[k].transfer != l.requests[k'].transfer)
    && (forall t: nat :: t < |l.transfers| ==> Recorded(l.requests, t))
    && (forall n :: n in l.notices ==> n.transfer < |l.transfers|)
  }

  ghost predicate Inv(l: Tables) {
    ForeignKeys(l) && Books(l) && Accounting(l) && Answered(l)
  }

  // ---------- Each command keeps it ----------

  lemma SeedKeepsBooks(l: Tables, user: nat)
    requires ForeignKeys(l) && Books(l)
    ensures ForeignKeys(EnsureAccount(l, user).0) && Books(EnsureAccount(l, user).0)
  {
    if FindAccount(l.accounts, user).None? {
      var (a, j) := (|l.accounts|, |l.journals|);
      TotalsAppendPair(l.entries, Entry(j, Owner(a), SEED_AMOUNT), Entry(j, SeedReserve, -SEED_AMOUNT));
      UnusedJournal(l.entries, j);
      UnusedAccount(l.entries, Owner(a));
    }
  }

  lemma SeedKeepsAccounting(l: Tables, user: nat)
    requires ForeignKeys(l) && Accounting(l)
    ensures Accounting(EnsureAccount(l, user).0)
  {
    if FindAccount(l.accounts, user).None? {
      var after := EnsureAccount(l, user).0;
      NetUnused(l.transfers, |l.accounts|);
      assert Balances(after.accounts) == Balances(l.accounts) + [SEED_AMOUNT];
      SumAppend(Balances(l.accounts), SEED_AMOUNT);
    }
  }

  lemma SeedKeepsInv(l: Tables, user: nat)
    requires Inv(l)
    ensures Inv(EnsureAccount(l, user).0)
  {
    SeedKeepsBooks(l, user);
    SeedKeepsAccounting(l, user);
  }

  /** Requests, safety and notices are outside the books. */
  lemma SameBooks(l: Tables, after: Tables)
    requires Inv(l)
    requires after.journals == l.journals && after.entries == l.entries && after.transfers == l.transfers
    requires |after.accounts| == |l.accounts|
    requires forall i :: 0 <= i < |l.accounts| ==>
               after.accounts[i].balance == l.accounts[i].balance && after.accounts[i].user == l.accounts[i].user
    requires !after.safety.Absent? || after.safety == l.safety
    ensures ForeignKeys(after) && Books(after) && Accounting(after)
  {
    assert Balances(after.accounts) == Balances(l.accounts);
  }

  lemma DenialKeepsInv(l: Tables, sender: nat, key: nat, payload: string)
    requires Inv(l) && (sender, key) !in l.requests
    ensures Inv(StoreDenial(l, sender, key, payload).0)
  {
    var after := StoreDenial(l, sender, key, payload).0;
    SameBooks(l, after);
    forall t: nat | t < |l.transfers|
      ensures Recorded(after.requests, t)
    {
      assert Recorded(l.requests, t);
      var k :| k in l.requests && l.requests[k].transfer == Some(t);
      assert k in after.requests;
    }
  }

  lemma PostKeepsBooks(l: Tables, sender: nat, recipient: nat, name: string, cents: nat, key: nat, payload: string)
    requires ForeignKeys(l) && Books(l)
    requires sender < |l.accounts| && recipient < |l.accounts| && sender != recipient
    ensures ForeignKeys(Post(l, sender, recipient, name, cents, key, payload).0)
    ensures Books(Post(l, sender, recipient, name, cents, key, payload).0)
  {
    var j := |l.journals|;
    TotalsAppendPair(l.entries, Entry(j, Owner(sender), -(cents as int)), Entry(j, Owner(recipient), cents));
    UnusedJournal(l.entries, j);
  }

  /** Moving money between two accounts changes no total. */
  lemma PostKeepsTotal(l: Tables, sender: nat, recipient: nat, cents: nat, accounts: seq<Account>)
    requires sender < |l.accounts| && recipient < |l.accounts| && sender != recipient
    requires Balances(accounts) ==
             Balances(l.accounts)[sender := l.accounts[sender].balance - cents][recipient := l.accounts[recipient].balance + cents]
    ensures Sum(Balances(accounts)) == Sum(Balances(l.accounts))
  {
    var b := Balances(l.accounts);
    var b' := b[sender := b[sender] - cents];
    SumUpdate(b, sender, b[sender] - cents);
    SumUpdate(b', recipient, b[recipient] + cents);
  }

  lemma PostKeepsAccounting(l: Tables, sender: nat, recipient: nat, name: string, cents: nat, key: nat, payload: string)
    requires Accounting(l)
    requires sender < |l.accounts| && recipient < |l.accounts| && sender != recipient
    requires l.accounts[sender].balance >= cents && l.accounts[recipient].balance + cents <= MAX_BALANCE
    ensures Accounting(Post(l, sender, recipient, name, cents, key, payload).0)
  {
    var after := Post(l, sender, recipient, name, cents, key, payload).0;
    assert Balances(after.accounts) ==
           Balances(l.accounts)[sender := l.accounts[sender].balance - cents][recipient := l.accounts[recipient].balance + cents];
    PostKeepsTotal(l, sender, recipient, cents, after.accounts);
    NetAppend(l.transfers, TransferRow(sender, recipient, |l.journals|, cents));
  }

  lemma PostKeepsAnswered(l: Tables, sender: nat, recipient: nat, name: string, cents: nat, key: nat, payload: string)
    requires Answered(l) && (sender, key) !in l.requests
    requires sender < |l.accounts| && recipient < |l.accounts|
    ensures Answered(Post(l, sender, recipient, name, cents, key, payload).0)
  {
    var after := Post(l, sender, recipient, name, cents, key, payload).0;
    forall t: nat | t < |after.transfers|
      ensures Recorded(after.requests, t)
    {
      if t < |l.transfers| {
        assert Recorded(l.requests, t);
        var k :| k in l.requests && l.requests[k].transfer == Some(t);
        assert k in after.requests;
      } else {
        assert (sender, key) in after.requests;
      }
    }
  }

  lemma ExecuteKeepsInv(l: Tables, users: seq<User>, senderUser: nat, name: string, cents: nat, key: nat, payload: string)
    requires Inv(l)
    ensures Inv(ExecuteOnce(l, users, senderUser, name, cents, key, payload).0)
  {
    match FindAccount(l.accounts, senderUser)
    case None =>
    case Some(sender) =>
      if (sender, key) !in l.requests && l.safety.Open? {
        DenialKeepsInv(l, sender, key, payload);
        var recipientUser := FindUser(users, name);
        if recipientUser.Some? && recipientUser.value != senderUser {
          var r := FindAccount(l.accounts, recipientUser.value);
          if r.Some? && Permitted(l, users, sender, r.value, cents) {
            PostKeepsBooks(l, sender, r.value, name, cents, key, payload);
            PostKeepsAccounting(l, sender, r.value, name, cents, key, payload);
            PostKeepsAnswered(l, sender, r.value, name, cents, key, payload);
          }
        }
      }
  }

  /** The retry loop either leaves everything as it was or is one execution. */
  lemma {:induction false} TransferIsOneExecution(l: Tables, users: seq<User>, senderUser: nat, name: string, cents: nat, key: nat,
                                                  payload: string, faults: seq<Fault>, attempt: nat)
    requires |faults| == 4 && attempt < 4
    ensures var (after, outcome) := Transfer(l, users, senderUser, name, cents, key, payload, faults, attempt);
            (after, outcome) == ExecuteOnce(l, users, senderUser, name, cents, key, payload)
            || (after == l && (outcome == TransferUnavailable || outcome == Failed))
    decreases 4 - attempt
  {
    if faults[attempt].Retryable? && attempt < 3 {
      TransferIsOneExecution(l, users, senderUser, name, cents, key, payload, faults, attempt + 1);
    }
  }

  /** A fresh 201 answer names the transfer row that was just written. */
  lemma FreshReceipt(l: Tables, users: seq<User>, senderUser: nat, name: string, cents: nat, key: nat, payload: string)
    ensures var (after, outcome) := ExecuteOnce(l, users, senderUser, name, cents, key, payload);
            outcome.Replied? && outcome.status == 201 && !outcome.replayed ==>
              && outcome.body.Receipt? && outcome.body.transfer == |l.transfers|
              && |after.transfers| == |l.transfers| + 1
              && after.notices == l.notices
              && (exists r :: FindUser(users, name) == Some(r) && r != senderUser && IsLive(users, senderUser) && IsLive(users, r))
  {
  }

  lemma NotifyKeepsInv(l: Tables, users: seq<User>, sender: nat, recipient: nat, transfer: nat)
    requires Inv(l) && transfer < |l.transfers|
    ensures var notified := NotifyBoth(l, users, sender, recipient, transfer); notified.Some? ==> Inv(notified.value)
  {
    var notified := NotifyBoth(l, users, sender, recipient, transfer);
    if notified.Some? {
      SameBooks(l, notified.value);
    }
  }

  lemma RoomKeepsInv(l: Tables, users: seq<User>, rooms: map<nat, Conversation>, senderUser: nat, room: nat, cents: nat, key: nat,
                     faults: seq<Fault>)
    requires Inv(l) && |faults| == 4
    ensures Inv(TransferForRoom(l, users, rooms, senderUser, room, cents, key, faults).0)
  {
    match FindAccount(l.accounts, senderUser)
    case None =>
    case Some(sender) =>
      var payload := CanonicalPayload.CanonicalByRoom(room, cents);
      if (sender, key) !in l.requests {
        DenialKeepsInv(l, sender, key, payload);
        if room in rooms {
          var peer := if senderUser == rooms[room].seller then rooms[room].buyer else rooms[room].seller;
          if peer < |users| {
            var name := users[peer].username;
            TransferIsOneExecution(l, users, senderUser, name, cents, key, payload, faults, 0);
            ExecuteKeepsInv(l, users, senderUser, name, cents, key, payload);
            FreshReceipt(l, users, senderUser, name, cents, key, payload);
            var (after, outcome) := Transfer(l, users, senderUser, name, cents, key, payload, faults, 0);
            if outcome.Replied? && outcome.status == 201 && !outcome.replayed {
              NotifyKeepsInv(after, users, senderUser, peer, outcome.body.transfer);
            }
          }
        }
      }
  }

  lemma ReopenKeepsInv(l: Tables, safety: Safety)
    requires Inv(l) && !safety.Absent?
    ensures Inv(l.(safety := safety))
  {
    SameBooks(l, l.(safety := safety));
  }

  lemma ShutKeepsInv(l: Tables, i: nat)
    requires Inv(l) && i < |l.accounts|
    ensures Inv(l.(accounts := l.accounts[i := l.accounts[i].(isOpen := false)]))
  {
    SameBooks(l, l.(accounts := l.accounts[i := l.accounts[i].(isOpen := false)]));
  }

  lemma CloseKeepsInv(l: Tables, user: nat)
    requires Inv(l)
    ensures Inv(CloseAccount(l, user).0)
  {
    ReopenKeepsInv(l, Open);
    var ready := l.(safety := Open);
    SeedKeepsInv(ready, user);
    var (seeded, i) := EnsureAccount(ready, user);
    ShutKeepsInv(seeded, i);
  }

  lemma TransferKeepsInv(l: Tables, users: seq<User>, sender: nat, name: string, cents: nat, key: nat, payload: string, faults: seq<Fault>)
    requires Inv(l) && |faults| == 4
    ensures Inv(Transfer(l, users, sender, name, cents, key, payload, faults, 0).0)
  {
    TransferIsOneExecution(l, users, sender, name, cents, key, payload, faults, 0);
    ExecuteKeepsInv(l, users, sender, name, cents, key, payload);
  }

  lemma StepKeepsInv(l: Tables, c: Command)
    requires Inv(l) && WellFormed(c)
    ensures Inv(Step(l, c))
  {
    match c
    case Seed(user) => SeedKeepsInv(l, user);
    case ByName(users, sender, name, cents, key, faults) =>
      TransferKeepsInv(l, users, sender, name, cents, key, CanonicalPayload.CanonicalByName(name, cents), faults);
    case ByRoom(users, rooms, sender, room, cents, key, faults) =>
      RoomKeepsInv(l, users, rooms, sender, room, cents, key, faults);
    case Close(user) => CloseKeepsInv(l, user);
    case Withdraw(account) =>
      if account < |l.accounts| { ShutKeepsInv(l, account); }
    case Check(_, _, _) => ReopenKeepsInv(l, Open);
  }

  /** Conservation over every run from the empty tables: see Inv. */
  lemma {:induction false} RunKeepsInv(cs: seq<Command>)
    requires AllWellFormed(cs)
    ensures Inv(Run(EMPTY, cs))
  {
    if cs != [] {
      RunKeepsInv(cs[..|cs| - 1]);
      StepKeepsInv(Run(EMPTY, cs[..|cs| - 1]), cs[|cs| - 1]);
    }
  }
}

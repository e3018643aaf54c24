/** The ledger services in the form the code has: methods that update the tables row by row inside
    a transaction, a retry loop, and a report built by two loops. */
module LedgerService {
  import opened Base
  import opened Accounts
  import opened Ledger
  import CanonicalPayload

  class Service {
    var accounts: seq<Account>
    var journals: seq<Journal>
    var entries: seq<Entry>
    var transfers: seq<TransferRow>
    var requests: map<(nat, nat), Request>
    var safety: Safety
    var notices: set<Notice>

    ghost function View(): Tables
      reads this
    {
      Tables(accounts, journals, entries, transfers, requests, safety, notices)
    }

    constructor ()
      ensures View() == EMPTY
    {
      accounts, journals, entries, transfers := [], [], [], [];
      requests, safety, notices := map[], Absent, {};
    }

    method Snapshot() returns (saved: Tables)
      ensures saved == View()
    {
      saved := Tables(accounts, journals, entries, transfers, requests, safety, notices);
    }

    /** Leaving a transaction by an exception. */
    method Rollback(saved: Tables)
      modifies this
      ensures View() == saved
    {
      accounts, journals, entries, transfers := saved.accounts, saved.journals, saved.entries, saved.transfers;
      requests, safety, notices := saved.requests, saved.safety, saved.notices;
    }

    method EnsureAccount(user: nat) returns (i: nat)
      modifies this
      ensures (View(), i) == Ledger.EnsureAccount(old(View()), user)
    {
      var found := FindAccount(accounts, user);
      if found.Some? {
        return found.value;
      }
      i := |accounts|;
      accounts := accounts + [Account(user, SEED_AMOUNT, true)];
      var journal := |journals|;
      journals := journals + [SeedIssue(i)];
      entries := entries + [Entry(journal, Owner(i), SEED_AMOUNT), Entry(journal, SeedReserve, -SEED_AMOUNT)];
      if safety.Absent? {
        safety := Open;
      }
    }

    method StoreDenial(sender: nat, key: nat, payload: string) returns (outcome: Outcome)
      modifies this`requests
      ensures (View(), outcome) == Ledger.StoreDenial(old(View()), sender, key, payload)
    {
      requests := requests[(sender, key) := Request(payload, 422, Denial, None)];
      outcome := Replied(422, Denial, false);
    }

    method ExecuteOnce(users: seq<User>, senderUser: nat, name: string, cents: nat, key: nat, payload: string)
      returns (outcome: Outcome)
      modifies this
      ensures (View(), outcome) == Ledger.ExecuteOnce(old(View()), users, senderUser, name, cents, key, payload)
    {
      var found := FindAccount(accounts, senderUser);
      if found.None? {
        return Failed;
      }
      var sender := found.value;
      if (sender, key) in requests {
        return Replay(requests[(sender, key)], payload);
      }
      if safety.Absent? {
        return Failed;
      }
      if safety.Blocked? {
        return TransferUnavailable;
      }
      var recipientUser := FindUser(users, name);
      if recipientUser.None? || recipientUser.value == senderUser {
        outcome := StoreDenial(sender, key, payload);
        return;
      }
      var peer := FindAccount(accounts, recipientUser.value);
      if peer.None? {
        outcome := StoreDenial(sender, key, payload);
        return;
      }
      var recipient := peer.value;
      if || !accounts[sender].isOpen
         || !accounts[recipient].isOpen
         || !MayTransfer(users, accounts[sender].user)
         || !MayTransfer(users, accounts[recipient].user)
         || accounts[sender].balance < cents
         || accounts[recipient].balance + cents > MAX_BALANCE
      {
        outcome := StoreDenial(sender, key, payload);
        return;
      }
      accounts := accounts[sender := accounts[sender].(balance := accounts[sender].balance - cents)];
      accounts := accounts[recipient := accounts[recipient].(balance := accounts[recipient].balance + cents)];
      var journal := |journals|;
      journals := journals + [TransferJournal];
      var debit: int := cents;
      entries := entries + [Entry(journal, Owner(sender), -debit), Entry(journal, Owner(recipient), debit)];
      var transfer := |transfers|;
      transfers := transfers + [TransferRow(sender, recipient, journal, cents)];
      var body := Receipt(transfer, name, cents, accounts[sender].balance);
      requests := requests[(sender, key) := Request(payload, 201, body, Some(transfer))];
      outcome := Replied(201, body, false);
    }

    /** faults[i] is what the database does to attempt i. */
    method Transfer(users: seq<User>, senderUser: nat, name: string, cents: nat, key: nat, payload: string, faults: seq<Fault>)
      returns (outcome: Outcome)
      requires |faults| == 4
      modifies this
      ensures (View(), outcome) == Ledger.Transfer(old(View()), users, senderUser, name, cents, key, payload, faults, 0)
    {
      for attempt := 0 to 4
        invariant View() == old(View())
        invariant attempt < 4 ==>
                    Ledger.Transfer(old(View()), users, senderUser, name, cents, key, payload, faults, 0)
                    == Ledger.Transfer(old(View()), users, senderUser, name, cents, key, payload, faults, attempt)
        invariant attempt == 4 ==>
                    Ledger.Transfer(old(View()), users, senderUser, name, cents, key, payload, faults, 0)
                    == (old(View()), TransferUnavailable)
      {
        match faults[attempt]
        case NoFault =>
          outcome := ExecuteOnce(users, senderUser, name, cents, key, payload);
          return;
        case OtherError =>
          return Failed;
        case Retryable =>
      }
      outcome := TransferUnavailable;
    }

    method CreateTransferNotifications(users: seq<User>, sender: nat, recipient: nat, transfer: nat) returns (ok: bool)
      modifies this`notices
      ensures var spec := NotifyBoth(old(View()), users, sender, recipient, transfer);
              ok == spec.Some? && (ok ==> View() == spec.value)
    {
      if !IsLive(users, sender) {
        return false;
      }
      notices := notices + {Notice(sender, true, transfer)};
      if !IsLive(users, recipient) {
        return false;
      }
      notices := notices + {Notice(recipient, false, transfer)};
      assert notices == old(notices) + {Notice(sender, true, transfer), Notice(recipient, false, transfer)};
      ok := true;
    }

    method TransferForProductRoom(users: seq<User>, rooms: map<nat, Conversation>, senderUser: nat, room: nat, cents: nat, key: nat,
                                  faults: seq<Fault>)
      returns (outcome: Outcome)
      requires |faults| == 4
      modifies this
      ensures (View(), outcome) == TransferForRoom(old(View()), users, rooms, senderUser, room, cents, key, faults)
    {
      var saved := Snapshot();
      var found := FindAccount(accounts, senderUser);
      if found.None? {
        return Failed;
      }
      var sender := found.value;
      var payload := CanonicalPayload.CanonicalByRoom(room, cents);
      if (sender, key) in requests {
        return Replay(requests[(sender, key)], payload);
      }
      if room !in rooms || !rooms[room].isProductRoom {
        outcome := StoreDenial(sender, key, payload);
        return;
      }
      var peer: nat;
      if senderUser == rooms[room].seller {
        peer := rooms[room].buyer;
      } else if senderUser == rooms[room].buyer {
        peer := rooms[room].seller;
      } else {
        outcome := StoreDenial(sender, key, payload);
        return;
      }
      if peer >= |users| {
        return Failed;
      }
      outcome := Transfer(users, senderUser, users[peer].username, cents, key, payload, faults);
      if !outcome.Replied? {
        Rollback(saved);
      } else if outcome.status == 201 && !outcome.replayed && outcome.body.Receipt? {
        var ok := CreateTransferNotifications(users, senderUser, peer, outcome.body.transfer);
        if !ok {
          Rollback(saved);
          outcome := Failed;
        }
      }
    }

    method CloseAccount(user: nat) returns (closing: Closing)
      modifies this
      ensures (View(), closing) == Ledger.CloseAccount(old(View()), user)
    {
      var saved := Snapshot();
      if safety.Absent? {
        safety := Open;
      }
      if !safety.Open? {
        return Unavailable;
      }
      var i := EnsureAccount(user);
      if !accounts[i].isOpen {
        return AlreadyClosed;
      }
      if accounts[i].balance != 0 {
        Rollback(saved);
        return NotEmpty;
      }
      accounts := accounts[i := accounts[i].(isOpen := false)];
      closing := ClosedNow;
    }

    method LedgerMismatches() returns (mismatches: seq<Mismatch>)
      ensures mismatches == Mismatches(View())
    {
      mismatches := [];
      for j := 0 to |journals|
        invariant mismatches == BadJournals(View(), j)
      {
        if JournalCount(entries, j) != 2 || JournalTotal(entries, j) != 0 {
          mismatches := mismatches + [BadJournal(j)];
        }
      }
      for i := 0 to |accounts|
        invariant mismatches == BadJournals(View(), |journals|) + BadAccounts(View(), i)
      {
        if AccountTotal(entries, Owner(i)) != accounts[i].balance {
          mismatches := mismatches + [BadAccount(i)];
        }
      }
    }

    method Reconcile(resume: Option<nat>, maintainer: bool, newIncident: nat) returns (verdict: Verdict)
      modifies this
      ensures (View(), verdict) == Ledger.Reconcile(old(View()), resume, maintainer, newIncident)
    {
      var saved := Snapshot();
      if safety.Absent? {
        safety := Open;
      }
      var mismatches := LedgerMismatches();
      match resume
      case Some(incident) =>
        if !maintainer || safety != Blocked(incident) || mismatches != [] {
          Rollback(saved);
          return ResumeError;
        }
        safety := Open;
        verdict := Resumed;
      case None =>
        if mismatches == [] {
          return Clean;
        }
        if safety.Open? {
          safety := Blocked(newIncident);
        }
        verdict := BlockedError(safety.incident);
        Rollback(saved);
    }
  }
}

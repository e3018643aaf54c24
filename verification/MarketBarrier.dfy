/** Withdrawal is a barrier: in every run, whatever other commands follow, a withdrawn user keeps no open
    money, trade, favorite or notification (src/apps/accounts/withdrawal.py:48-154). */
module MarketBarrier {
  import opened Base
  import opened Accounts
  import opened Market
  import Ledger
  import LedgerInvariant
  import Trades
  import TradeRuns

  // ---------- What withdrawal leaves ----------

  ghost predicate AccountShut(l: Ledger.Tables, user: nat) {
    && Ledger.FindAccount(l.accounts, user).Some?
    && !l.accounts[Ledger.FindAccount(l.accounts, user).value].isOpen
    && l.accounts[Ledger.FindAccount(l.accounts, user).value].balance == 0
  }

  ghost predicate Unnotified(s: State, user: nat) {
    && (forall n :: n in s.ledger.notices ==> n.recipient != user)
    && (forall n :: n in s.inbox ==> n.0 != user)
  }

  ghost predicate Gone(s: State, user: nat) {
    && user < |s.users| && s.users[user].withdrawn
    && AccountShut(s.ledger, user)
    && !HasReserved(s.trades, user)
    && (forall f :: f in s.favorites ==> f.0 != user)
    && Unnotified(s, user)
  }

  lemma EraseLeavesNothing(s: State, user: nat, account: nat)
    requires user < |s.users| && !HasReserved(s.trades, user)
    requires Ledger.FindAccount(s.ledger.accounts, user) == Some(account)
    requires s.ledger.accounts[account].balance == 0
    ensures Gone(Erase(s, user, account), user)
  {
    var after := Erase(s, user, account);
    Ledger.FindAccountStable(s.ledger.accounts, after.ledger.accounts, user);
  }

  // ---------- Ledger commands ----------

  /** The shut account of a user is in nobody's reach. */
  ghost predicate LedgerKeeps(before: Ledger.Tables, after: Ledger.Tables, user: nat) {
    && Ledger.ExtendsUsers(before.accounts, after.accounts)
    && (forall i :: 0 <= i < |before.accounts| && before.accounts[i].user == user && !before.accounts[i].isOpen ==>
          after.accounts[i] == before.accounts[i])
    && (forall n :: n in after.notices && n.recipient == user ==> n in before.notices)
  }

  lemma ExecuteKeepsShut(l: Ledger.Tables, users: seq<User>, sender: nat, name: string, cents: nat, key: nat, payload: string, user: nat)
    ensures LedgerKeeps(l, Ledger.ExecuteOnce(l, users, sender, name, cents, key, payload).0, user)
  {
  }

  lemma RoomKeepsShut(l: Ledger.Tables, users: seq<User>, rooms: map<nat, Ledger.Conversation>, sender: nat, room: nat, cents: nat, key: nat,
                      faults: seq<Ledger.Fault>, user: nat)
    requires |faults| == 4 && !IsLive(users, user)
    ensures LedgerKeeps(l, Ledger.TransferForRoom(l, users, rooms, sender, room, cents, key, faults).0, user)
  {
    var found := Ledger.FindAccount(l.accounts, sender);
    if found.Some? && room in rooms {
      var payload := Ledger.CanonicalPayload.CanonicalByRoom(room, cents);
      var peer := if sender == rooms[room].seller then rooms[room].buyer else rooms[room].seller;
      if peer < |users| {
        var name := users[peer].username;
        LedgerInvariant.TransferIsOneExecution(l, users, sender, name, cents, key, payload, faults, 0);
        ExecuteKeepsShut(l, users, sender, name, cents, key, payload, user);
      }
    }
  }

  lemma CloseKeepsShut(l: Ledger.Tables, closing: nat, user: nat)
    ensures LedgerKeeps(l, Ledger.CloseAccount(l, closing).0, user)
  {
  }

  lemma LedgerStepKeepsShut(l: Ledger.Tables, users: seq<User>, c: LedgerInvariant.Command, user: nat)
    requires LedgerInvariant.WellFormed(c) && !c.Withdraw? && !IsLive(users, user)
    requires LedgerInvariant.IsTransfer(c) ==> c.users == users
    ensures LedgerKeeps(l, LedgerInvariant.Step(l, c), user)
  {
    match c {
      case ByName(_, sender, name, cents, key, faults) =>
        var payload := Ledger.CanonicalPayload.CanonicalByName(name, cents);
        LedgerInvariant.TransferIsOneExecution(l, users, sender, name, cents, key, payload, faults, 0);
        ExecuteKeepsShut(l, users, sender, name, cents, key, payload, user);
      case ByRoom(_, rooms, sender, room, cents, key, faults) =>
        RoomKeepsShut(l, users, rooms, sender, room, cents, key, faults, user);
      case Close(closing) => CloseKeepsShut(l, closing, user);
      case _ =>
    }
  }

  lemma ShutLasts(before: Ledger.Tables, after: Ledger.Tables, user: nat)
    requires AccountShut(before, user) && LedgerKeeps(before, after, user)
    ensures AccountShut(after, user)
  {
    Ledger.FindAccountStable(before.accounts, after.accounts, user);
  }

  // ---------- Trades ----------

  lemma TradesKeepUnreserved(s: State, c: Command, user: nat)
    requires user < |s.users| && s.users[user].withdrawn && !HasReserved(s.trades, user)
    requires Possible(s, c)
    ensures !HasReserved(Step(s, c).trades, user)
  {
    var after := Step(s, c).trades;
    forall i | 0 <= i < |after| && Party(after[i], user) ensures !after[i].status.Reserved? {
      if i < |s.trades| {
        assert Party(s.trades[i], user);
      }
    }
  }

  // ---------- The barrier ----------

  lemma WithdrawalKeepsOthersGone(s: State, c: Command, user: nat)
    requires c.Withdrawing? && Gone(s, user)
    ensures Gone(Step(s, c), user)
  {
    TradesKeepUnreserved(s, c, user);
    var after := Step(s, c);
    if after != s {
      Ledger.FindAccountStable(s.ledger.accounts, after.ledger.accounts, user);
    }
  }

  lemma StepKeepsGone(s: State, c: Command, user: nat)
    requires Gone(s, user) && Possible(s, c)
    ensures Gone(Step(s, c), user)
  {
    if c.Withdrawing? {
      WithdrawalKeepsOthersGone(s, c, user);
    } else {
      TradesKeepUnreserved(s, c, user);
      var l := LedgerCommand(s, c);
      if l.Some? {
        LedgerStepKeepsShut(s.ledger, s.users, l.value, user);
        ShutLasts(s.ledger, Step(s, c).ledger, user);
      }
    }
  }

  /** Once gone, gone after any further run. */
  lemma {:induction false} GoneForever(s: State, run: seq<Command>, user: nat)
    requires Gone(s, user) && PossibleRun(s, run)
    ensures Gone(Run(s, run), user)
    decreases |run|
  {
    if run != [] {
      StepKeepsGone(s, run[0], user);
      GoneForever(Step(s, run[0]), run[1..], user);
    }
  }

  /** A withdrawal that commits: it needs an active user with the right password, no reserved trade and
      an existing empty account, and from then on the user stays gone. */
  lemma WithdrawalIsABarrier(s: State, user: nat, passwordOk: bool, retained: bool, run: seq<Command>)
    requires user < |s.users| && !s.users[user].withdrawn
    requires PossibleRun(Withdraw(s, user, passwordOk, retained).0, run)
    ensures var (after, outcome) := Withdraw(s, user, passwordOk, retained);
            && (outcome.Withdrawn? <==>
                  && s.users[user].isActive && passwordOk && retained && !HasReserved(s.trades, user)
                  && Ledger.FindAccount(s.ledger.accounts, user).Some?
                  && s.ledger.accounts[Ledger.FindAccount(s.ledger.accounts, user).value].balance == 0)
            && (outcome.Withdrawn? ==> Gone(Run(after, run), user))
            && (!outcome.Withdrawn? ==> after == s)
  {
    var (after, outcome) := Withdraw(s, user, passwordOk, retained);
    if outcome.Withdrawn? {
      EraseLeavesNothing(s, user, Ledger.FindAccount(s.ledger.accounts, user).value);
      GoneForever(after, run, user);
    }
  }
}

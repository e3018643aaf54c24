/** Reconciliation and the OPEN/BLOCKED safety state, from reachable and from corrupted tables. */
module LedgerSafety {
  import opened Base
  import opened Accounts
  import opened Ledger
  import opened LedgerInvariant
  import opened LedgerIdempotency
  import CanonicalPayload

  // ---------- What an empty report means ----------

  lemma {:induction false} NoBadJournals(l: Tables, n: nat)
    requires n <= |l.journals|
    ensures BadJournals(l, n) == [] <==> forall j: nat :: j < n ==> Balanced(l, j)
  {
    if n > 0 {
      NoBadJournals(l, n - 1);
    }
  }

  lemma {:induction false} NoBadAccounts(l: Tables, n: nat)
    requires n <= |l.accounts|
    ensures BadAccounts(l, n) == [] <==> forall i: nat :: i < n ==> Agrees(l, i)
  {
    if n > 0 {
      NoBadAccounts(l, n - 1);
    }
  }

  lemma NoMismatchIff(l: Tables)
    ensures Mismatches(l) == [] <==>
              (forall j: nat :: j < |l.journals| ==> Balanced(l, j)) && (forall i: nat :: i < |l.accounts| ==> Agrees(l, i))
  {
    NoBadJournals(l, |l.journals|);
    NoBadAccounts(l, |l.accounts|);
  }

  // ---------- Double counting: journals against accounts ----------

  function GrandTotal(entries: seq<Entry>): int {
    if entries == [] then 0 else GrandTotal(entries[..|entries| - 1]) + entries[|entries| - 1].amount
  }

  function OverJournals(entries: seq<Entry>, n: nat): int {
    if n == 0 then 0 else OverJournals(entries, n - 1) + JournalTotal(entries, n - 1)
  }

  function OverAccounts(entries: seq<Entry>, n: nat): int {
    if n == 0 then 0 else OverAccounts(entries, n - 1) + AccountTotal(entries, Owner(n - 1))
  }

  lemma {:induction false} OverAppend(entries: seq<Entry>, e: Entry, n: nat)
    ensures OverJournals(entries + [e], n) == OverJournals(entries, n) + (if e.journal < n then e.amount else 0)
    ensures OverAccounts(entries + [e], n)
         == OverAccounts(entries, n) + (if e.account.Owner? && e.account.account < n then e.amount else 0)
  {
    if n > 0 {
      OverAppend(entries, e, n - 1);
      TotalsAppend(entries, e);
    }
  }

  lemma {:induction false} OverNothing(n: nat)
    ensures OverJournals([], n) == 0 && OverAccounts([], n) == 0
  {
    if n > 0 {
      OverNothing(n - 1);
    }
  }

  lemma {:induction false} CountedBothWays(entries: seq<Entry>, journals: nat, accounts: nat)
    requires forall i :: 0 <= i < |entries| ==>
               entries[i].journal < journals && (entries[i].account.Owner? ==> entries[i].account.account < accounts)
    ensures GrandTotal(entries) == OverJournals(entries, journals)
    ensures GrandTotal(entries) == OverAccounts(entries, accounts) + AccountTotal(entries, SeedReserve)
  {
    if entries == [] {
      OverNothing(journals);
      OverNothing(accounts);
    } else {
      var (init, e) := (entries[..|entries| - 1], entries[|entries| - 1]);
      CountedBothWays(init, journals, accounts);
      assert entries == init + [e];
      OverAppend(init, e, journals);
      OverAppend(init, e, accounts);
    }
  }

  lemma {:induction false} BalancedOverJournals(l: Tables, n: nat)
    requires n <= |l.journals| && forall j: nat :: j < n ==> Balanced(l, j)
    ensures OverJournals(l.entries, n) == 0
  {
    if n > 0 {
      BalancedOverJournals(l, n - 1);
      assert Balanced(l, n - 1);
    }
  }

  lemma {:induction false} AgreedOverAccounts(l: Tables, n: nat)
    requires n <= |l.accounts| && forall i: nat :: i < n ==> Agrees(l, i)
    ensures OverAccounts(l.entries, n) == Sum(Balances(l.accounts)[..n])
  {
    if n > 0 {
      AgreedOverAccounts(l, n - 1);
      assert Agrees(l, n - 1);
      assert Balances(l.accounts)[..n] == Balances(l.accounts)[..n - 1] + [l.accounts[n - 1].balance];
      SumAppend(Balances(l.accounts)[..n - 1], l.accounts[n - 1].balance);
    }
  }

  /** A clean report means more than it checks: whatever history the tables have, the system
      account owes exactly what all user accounts hold. */
  lemma CleanReportMirrorsReserve(l: Tables)
    requires ForeignKeys(l) && Mismatches(l) == []
    ensures AccountTotal(l.entries, SeedReserve) == -Sum(Balances(l.accounts))
  {
    NoMismatchIff(l);
    CountedBothWays(l.entries, |l.journals|, |l.accounts|);
    BalancedOverJournals(l, |l.journals|);
    AgreedOverAccounts(l, |l.accounts|);
    assert Balances(l.accounts)[..|l.accounts|] == Balances(l.accounts);
  }

  /** The services alone never give reconciliation anything to report. */
  lemma ReachableIsClean(cs: seq<Command>)
    requires AllWellFormed(cs)
    ensures Mismatches(Run(EMPTY, cs)) == []
  {
    RunKeepsInv(cs);
    NoMismatchIff(Run(EMPTY, cs));
  }

  // ---------- The block ----------

  /** The one command that ends a block. */
  predicate Reopens(l: Tables, c: Command) {
    && c.Check? && l.safety.Blocked?
    && c.resume == Some(l.safety.incident) && c.maintainer && Mismatches(l) == []
  }

  /** How every command acts on the safety state: a block ends exactly with a matching resume on
      tables without mismatches, and no command ever begins one. */
  lemma SafetyStep(l: Tables, c: Command)
    requires WellFormed(c)
    ensures l.safety.Blocked? ==> Step(l, c).safety == (if Reopens(l, c) then Open else l.safety)
    ensures !l.safety.Blocked? ==> !Step(l, c).safety.Blocked?
  {
    if IsTransfer(c) {
      SafetyOfTransfer(l, c);
    }
  }

  lemma SafetyOfTransfer(l: Tables, c: Command)
    requires WellFormed(c) && IsTransfer(c)
    ensures Step(l, c).safety == l.safety
    ensures l.safety.Blocked? ==> Step(l, c).transfers == l.transfers && Step(l, c).entries == l.entries && Step(l, c).accounts == l.accounts
  {
    var users := c.users;
    match c
    case ByName(_, sender, name, cents, key, faults) =>
      TransferIsOneExecution(l, users, sender, name, cents, key, CanonicalPayload.CanonicalByName(name, cents), faults, 0);
    case ByRoom(_, rooms, sender, room, cents, key, faults) =>
      if room in rooms {
        var peer := PeerOf(rooms[room], sender);
        if peer < |users| {
          TransferIsOneExecution(l, users, sender, users[peer].username, cents, key,
                                 CanonicalPayload.CanonicalByRoom(room, cents), faults, 0);
        }
      }
  }

  /** No money moved: same transfers, entries only appended, old balances as they were. */
  ghost predicate StoodStill(l: Tables, after: Tables) {
    && after.transfers == l.transfers
    && l.entries <= after.entries
    && |l.accounts| <= |after.accounts|
    && (forall i :: 0 <= i < |l.accounts| ==> after.accounts[i].balance == l.accounts[i].balance)
  }

  lemma BlockedStep(l: Tables, c: Command)
    requires WellFormed(c) && l.safety.Blocked?
    ensures StoodStill(l, Step(l, c))
  {
    if IsTransfer(c) {
      SafetyOfTransfer(l, c);
    }
  }

  /** From any blocked tables, however corrupted: until a matching resume without mismatches, no run of
      commands moves money, closes an account by request or ends the block; seeding may still append. */
  lemma {:induction false} BlockStands(l: Tables, cs: seq<Command>)
    requires l.safety.Blocked? && AllWellFormed(cs)
    requires forall n :: 0 <= n < |cs| ==> !Reopens(Run(l, cs[..n]), cs[n])
    ensures var after := Run(l, cs);
            after.safety == l.safety && StoodStill(l, after)
  {
    if cs != [] {
      var n := |cs| - 1;
      forall m | 0 <= m < n
        ensures !Reopens(Run(l, cs[..n][..m]), cs[..n][m])
      {
        assert cs[..n][..m] == cs[..m];
      }
      BlockStands(l, cs[..n]);
      var before := Run(l, cs[..n]);
      assert !Reopens(before, cs[n]);
      SafetyStep(before, cs[n]);
      BlockedStep(before, cs[n]);
    }
  }

  // ---------- The block that reconciliation announces is never stored ----------

  /** No run from tables that are not blocked ever reaches a block. */
  lemma {:induction false} NoRunBlocks(l: Tables, cs: seq<Command>)
    requires AllWellFormed(cs) && !l.safety.Blocked?
    ensures !Run(l, cs).safety.Blocked?
  {
    if cs != [] {
      var n := |cs| - 1;
      NoRunBlocks(l, cs[..n]);
      SafetyStep(Run(l, cs[..n]), cs[n]);
    }
  }

  /** The promise "after a report with mismatches new transfers are refused" holds exactly when the
      tables were blocked before the report: the command raises inside its own transaction. */
  lemma RefusedAfterReportIff(l: Tables, maintainer: bool, incident: nat, users: seq<User>, sender: nat, name: string, cents: nat,
                              key: nat, payload: string)
    requires Mismatches(l) != [] && !l.safety.Absent?
    requires FindAccount(l.accounts, sender).Some? && Stored(l, sender, key).None?
    ensures Reconcile(l, None, maintainer, incident).1.BlockedError?
    ensures var after := Reconcile(l, None, maintainer, incident).0;
            ExecuteOnce(after, users, sender, name, cents, key, payload).1 == TransferUnavailable <==> l.safety.Blocked?
  {
  }

  /** Two accounts, the first holding one cent more than its entries say. */
  function Corrupted(): Tables {
    EMPTY.(accounts := [Account(0, SEED_AMOUNT + 1, true), Account(1, SEED_AMOUNT, true)],
           journals := [SeedIssue(0), SeedIssue(1)],
           entries := [Entry(0, Owner(0), SEED_AMOUNT), Entry(0, SeedReserve, -SEED_AMOUNT),
                       Entry(1, Owner(1), SEED_AMOUNT), Entry(1, SeedReserve, -SEED_AMOUNT)],
           safety := Open)
  }

  /** A mismatch is reported as a block, and the next transfer still goes through. */
  lemma TransferAfterReportedBlock()
    ensures var l := Corrupted();
            var (after, verdict) := Reconcile(l, None, true, 7);
            var users := [User("seller_one", true, false, false, false), User("buyer_two", true, false, false, false)];
            && verdict == BlockedError(7)
            && IsFresh201(ExecuteOnce(after, users, 0, "buyer_two", 100, 0, "p").1)
  {
    var l := Corrupted();
    var users := [User("seller_one", true, false, false, false), User("buyer_two", true, false, false, false)];
    var (e0, e1, e2, e3) := (l.entries[0], l.entries[1], l.entries[2], l.entries[3]);
    assert l.entries == [] + [e0] + [e1] + [e2] + [e3];
    TotalsAppend([], e0);
    TotalsAppend([] + [e0], e1);
    TotalsAppend([] + [e0] + [e1], e2);
    TotalsAppend([] + [e0] + [e1] + [e2], e3);
    assert !Agrees(l, 0);
    NoMismatchIff(l);
    assert FindAccount(l.accounts[..1], 0) == Some(0) && FindAccount(l.accounts, 0) == Some(0);
    assert FindAccount(l.accounts[..1], 1).None? && FindAccount(l.accounts, 1) == Some(1);
    assert FindUser(users[..1], "buyer_two").None? by {
      assert users[..1][0].username[0] != "buyer_two"[0];
    }
    assert FindUser(users, "buyer_two") == Some(1);
  }
}

/** What withdrawal does to a user's products, and what stays so: nothing of a withdrawn user's earlier
    catalog is for sale again (src/apps/accounts/withdrawal.py:95-114, src/apps/trades/services.py:79-109). */
module MarketCatalog {
  import opened Base
  import opened Accounts
  import opened Market
  import Ledger
  import MarketRuns
  import Trades
  import TradeRuns

  /** A product out of sale: archived, or sold for good. */
  predicate OffSale(s: State, p: nat) {
    p < |s.products| && (s.products[p].archived || Trades.EffectiveState(s.trades, p).Sold?)
  }

  ghost predicate HasSale(trades: seq<Trades.Trade>, p: nat) {
    exists i :: 0 <= i < |trades| && trades[i].product == p && trades[i].status.Completed?
  }

  /** A completed trade is what makes a product sold. */
  lemma SoldIff(products: seq<Trades.Product>, trades: seq<Trades.Trade>, p: nat)
    requires TradeRuns.Inv(products, trades)
    ensures Trades.EffectiveState(trades, p).Sold? <==> HasSale(trades, p)
  {
    var found := Trades.FindOpen(trades, p);
    if i :| 0 <= i < |trades| && trades[i].product == p && trades[i].status.Completed? {
      assert Trades.OpenOn(trades[i], p);
      assert i < found.value ==> trades[i].status.Cancelled?;
      assert found.value < i ==> trades[found.value].status.Cancelled?;
    }
  }

  /** The archiving update takes exactly the user's unsold products, once each, and no one else's. */
  lemma ArchivesExactlyUnsold(s: State, user: nat, account: nat, p: nat)
    requires TradeRuns.Inv(s.products, s.trades) && p < |s.products|
    requires user < |s.users| && account < |s.ledger.accounts|
    ensures var (before, after) := (s.products[p], Erase(s, user, account).products);
            && |after| == |s.products|
            && after[p] == if before.owner == user && !before.archived && !Trades.EffectiveState(s.trades, p).Sold?
                           then before.(archived := true, version := before.version + 1) else before
  {
    SoldIff(s.products, s.trades, p);
    if s.products[p].owner == user {
      if i :| 0 <= i < |s.trades| && s.trades[i].product == p && s.trades[i].status.Completed? {
        assert TradeRuns.RowSound(s.products, s.trades[i]);
        assert Party(s.trades[i], user);
      }
    }
  }

  lemma StepKeepsTrade(s: State, c: Command, i: nat)
    requires Possible(s, c) && i < |s.trades|
    ensures i < |Step(s, c).trades| && TradeRuns.Later(s.trades[i], Step(s, c).trades[i])
  {
    TradeRuns.StepKeepsRow(TradeRuns.State(s.users, s.products, s.trades), MarketRuns.TradeCommand(s, c), i);
  }

  lemma StepKeepsOffSale(s: State, c: Command, p: nat)
    requires MarketRuns.Inv(s) && Possible(s, c) && OffSale(s, p)
    ensures OffSale(Step(s, c), p)
  {
    var after := Step(s, c);
    MarketRuns.StepKeepsInv(s, c);
    SoldIff(s.products, s.trades, p);
    SoldIff(after.products, after.trades, p);
    if !s.products[p].archived {
      var i :| 0 <= i < |s.trades| && s.trades[i].product == p && s.trades[i].status.Completed?;
      StepKeepsTrade(s, c, i);
      assert after.trades[i] == s.trades[i];
    }
  }

  lemma {:induction false} OffSaleForever(s: State, run: seq<Command>, p: nat)
    requires MarketRuns.Inv(s) && PossibleRun(s, run) && OffSale(s, p)
    ensures OffSale(Run(s, run), p)
    decreases |run|
  {
    if run != [] {
      StepKeepsOffSale(s, run[0], p);
      MarketRuns.StepKeepsInv(s, run[0]);
      OffSaleForever(Step(s, run[0]), run[1..], p);
    }
  }

  /** After a withdrawal commits, and over every later run, each product the user had is off sale. */
  lemma NothingLeftForSale(s: State, user: nat, run: seq<Command>, p: nat)
    requires MarketRuns.Inv(s) && user < |s.users| && !s.users[user].withdrawn
    requires Withdraw(s, user, true, true).1.Withdrawn? && PossibleRun(Withdraw(s, user, true, true).0, run)
    requires p < |s.products| && s.products[p].owner == user
    ensures OffSale(Run(Withdraw(s, user, true, true).0, run), p)
  {
    var after := Withdraw(s, user, true, true).0;
    ArchivesExactlyUnsold(s, user, Ledger.FindAccount(s.ledger.accounts, user).value, p);
    MarketRuns.StepKeepsInv(s, Withdrawing(user, true, true));
    OffSaleForever(after, run, p);
  }
}

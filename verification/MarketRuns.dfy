/** What every run of the whole market keeps: the books, the trade histories, the favorite counts, and
    that every withdrawn user is gone. */
module MarketRuns {
  import opened Base
  import opened Accounts
  import opened Market
  import opened MarketBarrier
  import Ledger
  import LedgerInvariant
  import Trades
  import TradeRuns

  /** favorite_count is the number of favorite rows; a product without a metric row has none. */
  ghost predicate Counted(metrics: map<nat, nat>, favorites: set<(nat, nat)>, product: nat) {
    |FansOf(favorites, product)| == if product in metrics then metrics[product] else 0
  }

  ghost predicate Inv(s: State) {
    && LedgerInvariant.Inv(s.ledger)
    && TradeRuns.Inv(s.products, s.trades)
    && (forall p :: Counted(s.metrics, s.favorites, p))
    && (forall u :: 0 <= u < |s.users| && s.users[u].withdrawn ==> Gone(s, u))
  }

  // ---------- The books ----------

  lemma NoticesOutsideBooks(l: Ledger.Tables, fewer: set<Ledger.Notice>)
    requires LedgerInvariant.Inv(l) && fewer <= l.notices
    ensures LedgerInvariant.Inv(l.(notices := fewer))
  {
    LedgerInvariant.SameBooks(l, l.(notices := fewer));
  }

  lemma EraseKeepsBooks(s: State, user: nat, account: nat)
    requires LedgerInvariant.Inv(s.ledger) && user < |s.users| && account < |s.ledger.accounts|
    ensures LedgerInvariant.Inv(Erase(s, user, account).ledger)
  {
    LedgerInvariant.StepKeepsInv(s.ledger, LedgerInvariant.Withdraw(account));
    var shut := Ledger.CloseEmpty(s.ledger, account);
    NoticesOutsideBooks(shut, set n | n in s.ledger.notices && n.recipient != user);
  }

  lemma StepKeepsBooks(s: State, c: Command)
    requires LedgerInvariant.Inv(s.ledger) && Possible(s, c)
    ensures LedgerInvariant.Inv(Step(s, c).ledger)
  {
    if c.Withdrawing? {
      var found := Ledger.FindAccount(s.ledger.accounts, c.user);
      if c.user < |s.users| && found.Some? {
        EraseKeepsBooks(s, c.user, found.value);
      }
    } else if c.Purging? {
      NoticesOutsideBooks(s.ledger, s.ledger.notices - c.notices);
    } else if LedgerCommand(s, c).Some? {
      LedgerInvariant.StepKeepsInv(s.ledger, LedgerCommand(s, c).value);
    }
  }

  // ---------- The trade histories ----------

  function TradeCommand(s: State, c: Command): TradeRuns.Command
    requires Possible(s, c)
  {
    match c
    case Reserving(actor, product) => TradeRuns.Reserving(actor, product)
    case Cancelling(actor, id, expected) => TradeRuns.Cancelling(actor, id, expected)
    case Completing(actor, id, expected, now) => TradeRuns.Completing(actor, id, expected, now)
    case _ => TradeRuns.Elsewhere(Step(s, c).users, Step(s, c).products)
  }

  /** Seen from the trades, a market command is a trade command or one elsewhere. */
  lemma StepKeepsHistories(s: State, c: Command)
    requires TradeRuns.Inv(s.products, s.trades) && Possible(s, c)
    ensures TradeRuns.Inv(Step(s, c).products, Step(s, c).trades)
  {
    TradeRuns.StepKeepsInv(TradeRuns.State(s.users, s.products, s.trades), TradeCommand(s, c));
  }

  // ---------- The favorite counts ----------

  lemma FavoriteCounts(s: State, user: nat, product: nat, active: bool, p: nat)
    requires Counted(s.metrics, s.favorites, p)
    ensures var after := SetFavorite(s, user, product, active).0; Counted(after.metrics, after.favorites, p)
  {
    var after := SetFavorite(s, user, product, active).0;
    if p != product {
      assert FansOf(after.favorites, p) == FansOf(s.favorites, p);
    }
  }

  lemma EraseCounts(s: State, user: nat, account: nat, p: nat)
    requires Counted(s.metrics, s.favorites, p) && user < |s.users| && account < |s.ledger.accounts|
    ensures Counted(Erase(s, user, account).metrics, Erase(s, user, account).favorites, p)
  {
    var after := Erase(s, user, account);
    if (user, p) in s.favorites {
      assert (user, p) in FavoritesOf(s.favorites, user);
    } else {
      forall f | f in FavoritesOf(s.favorites, user) ensures f.1 != p {
        assert f == (user, f.1);
      }
      assert FansOf(after.favorites, p) == FansOf(s.favorites, p);
    }
  }

  lemma StepKeepsCounts(s: State, c: Command, p: nat)
    requires Counted(s.metrics, s.favorites, p) && Possible(s, c)
    ensures Counted(Step(s, c).metrics, Step(s, c).favorites, p)
  {
    if c.Withdrawing? {
      var found := Ledger.FindAccount(s.ledger.accounts, c.user);
      if c.user < |s.users| && found.Some? {
        EraseCounts(s, c.user, found.value, p);
      }
    } else if c.Favoriting? {
      FavoriteCounts(s, c.user, c.product, c.active, p);
    }
  }

  // ---------- Withdrawn users ----------

  /** Only a committed withdrawal makes a user withdrawn, and it leaves the user gone. */
  lemma StepWithdraws(s: State, c: Command, user: nat)
    requires Possible(s, c)
    requires user < |s.users| && s.users[user].withdrawn ==> Gone(s, user)
    ensures var after := Step(s, c); user < |after.users| && after.users[user].withdrawn ==> Gone(after, user)
  {
    var after := Step(s, c);
    if user < |s.users| && s.users[user].withdrawn {
      StepKeepsGone(s, c, user);
    } else if user < |after.users| && after.users[user].withdrawn {
      EraseLeavesNothing(s, user, Ledger.FindAccount(s.ledger.accounts, user).value);
    }
  }

  // ---------- Runs ----------

  lemma StepKeepsInv(s: State, c: Command)
    requires Inv(s) && Possible(s, c)
    ensures Inv(Step(s, c))
  {
    var after := Step(s, c);
    StepKeepsBooks(s, c);
    StepKeepsHistories(s, c);
    forall p ensures Counted(after.metrics, after.favorites, p) {
      StepKeepsCounts(s, c, p);
    }
    forall u | 0 <= u < |after.users| && after.users[u].withdrawn ensures Gone(after, u) {
      StepWithdraws(s, c, u);
    }
  }

  lemma {:induction false} RunKeepsInv(s: State, run: seq<Command>)
    requires Inv(s) && PossibleRun(s, run)
    ensures Inv(Run(s, run))
    decreases |run|
  {
    if run != [] {
      StepKeepsInv(s, run[0]);
      RunKeepsInv(Step(s, run[0]), run[1..]);
    }
  }

  /** A market before any command: products and legacy sales may exist already. */
  ghost predicate Initial(s: State) {
    && (forall u :: 0 <= u < |s.users| ==> !s.users[u].withdrawn)
    && s.ledger == Ledger.EMPTY && s.favorites == {} && s.metrics == map[]
    && TradeRuns.NoStandardTrades(TradeRuns.State(s.users, s.products, s.trades))
  }

  lemma EveryRunKeepsInv(s: State, run: seq<Command>)
    requires Initial(s) && PossibleRun(s, run)
    ensures Inv(Run(s, run))
  {
    forall p ensures Counted(s.metrics, s.favorites, p) {
      assert FansOf(s.favorites, p) == {};
    }
    LedgerInvariant.RunKeepsInv([]);
    RunKeepsInv(s, run);
  }

  /** Asking again answers with the same task and changes nothing. */
  lemma WithdrawingTwice(s: State, user: nat, passwordOk: bool, retained: bool, againOk: bool, againRetained: bool)
    requires Withdraw(s, user, passwordOk, retained).1.Withdrawn?
    ensures var (after, first) := Withdraw(s, user, passwordOk, retained);
            Withdraw(after, user, againOk, againRetained) == (after, Withdrawn(first.epoch, false))
  {
  }
}

/** Withdrawal, favorites and notifications as the source runs them, over tables changed in place
    (src/apps/accounts/withdrawal.py:48-154, src/apps/catalog/engagement.py:19-68,
    src/apps/notifications/services.py:39-58). */
module MarketService {
  import opened Base
  import opened Accounts
  import opened Market
  import Ledger
  import Trades

  class Service {
    var users: seq<User>
    var epochs: map<nat, nat>
    var ledger: Ledger.Tables
    var products: seq<Trades.Product>
    var trades: seq<Trades.Trade>
    var favorites: set<(nat, nat)>
    var metrics: map<nat, nat>
    var inbox: set<(nat, string)>
    var tasks: set<(nat, nat)>

    constructor (users: seq<User>, products: seq<Trades.Product>)
      ensures View() == State(users, map[], Ledger.EMPTY, products, [], {}, map[], {}, {})
    {
      this.users, this.products := users, products;
      epochs, ledger, trades, favorites, metrics, inbox, tasks := map[], Ledger.EMPTY, [], {}, map[], {}, {};
    }

    function View(): State
      reads this
    {
      State(users, epochs, ledger, products, trades, favorites, metrics, inbox, tasks)
    }

    method RecomputeProductMetric(product: nat)
      modifies this`metrics
      ensures View() == Recompute(old(View()), product)
    {
      var count := |FansOf(favorites, product)|;
      metrics := metrics[product := count];
    }

    method SetFavorite(user: nat, product: nat, active: bool) returns (r: Engagement)
      modifies this`favorites, this`metrics
      ensures (View(), r) == Market.SetFavorite(old(View()), user, product, active)
    {
      if !IsLive(users, user) {
        return Denied;
      }
      if product >= |products| {
        return ServerError;
      }
      if active {
        favorites := favorites + {(user, product)};
      } else {
        favorites := favorites - {(user, product)};
      }
      RecomputeProductMetric(product);
      return Applied;
    }

    method CreateNotification(recipient: nat, key: string) returns (r: Delivery)
      modifies this`inbox
      ensures (View(), r) == Market.CreateNotification(old(View()), recipient, key)
    {
      if key == "" || |key| > 160 {
        return BadKey;
      }
      if !IsLive(users, recipient) {
        return Refused;
      }
      if (recipient, key) in inbox {
        return Known;
      }
      inbox := inbox + {(recipient, key)};
      return Created;
    }

    /** The bulk update of the products that are still for sale. */
    method ArchiveProducts(user: nat)
      modifies this`products
      ensures products == ArchiveAll(old(View()), user)
    {
      ghost var s := View();
      for p := 0 to |products|
        invariant |products| == |s.products|
        invariant forall q :: 0 <= q < |products| ==> products[q] == if q < p then ArchiveAll(s, user)[q] else s.products[q]
      {
        var row := products[p];
        if row.owner == user && !row.archived && !SoldBy(trades, user, p) {
          products := products[p := row.(archived := true, version := row.version + 1)];
        }
      }
    }

    /** One metric after the other. */
    method RecomputeMetrics(ids: set<nat>)
      modifies this`metrics
      ensures metrics == Recounted(old(metrics), favorites, ids)
    {
      var todo := ids;
      while todo != {}
        invariant todo <= ids
        invariant metrics == Recounted(old(metrics), favorites, ids - todo)
        decreases todo
      {
        var p :| p in todo;
        RecomputeProductMetric(p);
        assert ids - (todo - {p}) == ids - todo + {p};
        todo := todo - {p};
      }
      assert ids - todo == ids;
    }

    /** Deleting the user's notifications and closing the account if it is still open. */
    method ForgetLedger(user: nat, i: nat)
      requires user < |users| && i < |ledger.accounts| && ledger.accounts[i].balance == 0
      modifies this`inbox, this`ledger
      ensures inbox == Unaddressed(old(inbox), user) && ledger == Forgotten(old(ledger), user, i)
    {
      var account := ledger.accounts[i];
      inbox := set n | n in inbox && n.0 != user;
      ledger := ledger.(notices := set n | n in ledger.notices && n.recipient != user);
      if account.isOpen {
        ledger := ledger.(accounts := ledger.accounts[i := account.(isOpen := false)]);
      } else {
        assert ledger.accounts[i := account.(isOpen := false)] == ledger.accounts;
      }
    }

    /** The catalog part: archive what is for sale, drop the favorites, recount their products. */
    method EraseEngagement(user: nat)
      modifies this`products, this`favorites, this`metrics
      ensures products == ArchiveAll(old(View()), user)
      ensures favorites == old(favorites) - FavoritesOf(old(favorites), user)
      ensures metrics == Recounted(old(metrics), favorites, (set f | f in FavoritesOf(old(favorites), user) :: f.1))
    {
      var favoriteProducts := set f | f in FavoritesOf(favorites, user) :: f.1;
      ArchiveProducts(user);
      favorites := favorites - FavoritesOf(favorites, user);
      RecomputeMetrics(favoriteProducts);
    }

    /** The writes of a withdrawal, in the source's order. */
    method EraseUser(user: nat, i: nat) returns (created: bool)
      requires user < |users| && i < |ledger.accounts| && ledger.accounts[i].balance == 0
      modifies this
      ensures View() == Erase(old(View()), user, i)
      ensures created <==> (user, EpochOf(old(View()), user) + 1) !in old(tasks)
    {
      var epoch := EpochOf(View(), user) + 1;
      EraseEngagement(user);
      ForgetLedger(user, i);
      users := users[user := users[user].(isActive := false, withdrawn := true)];
      epochs := epochs[user := epoch];
      created := (user, epoch) !in tasks;
      tasks := tasks + {(user, epoch)};
    }

    /** withdraw_account: every check comes before the first write. */
    method WithdrawAccount(user: nat, passwordOk: bool, retained: bool) returns (r: Withdrawal)
      modifies this
      ensures (View(), r) == Withdraw(old(View()), user, passwordOk, retained)
    {
      if user >= |users| {
        return Unavailable;
      }
      var current := EpochOf(View(), user);
      if users[user].withdrawn {
        if (user, current) in tasks {
          return Withdrawn(current, false);
        }
        return Unavailable;
      }
      if !users[user].isActive || !passwordOk {
        return Blocked;
      }
      if HasReserved(trades, user) {
        return Blocked;
      }
      var found := Ledger.FindAccount(ledger.accounts, user);
      if found.None? {
        return Unavailable;
      }
      if ledger.accounts[found.value].balance != 0 {
        return Blocked;
      }
      if !retained {
        return Unavailable;
      }
      var created := EraseUser(user, found.value);
      return Withdrawn(current + 1, created);
    }
  }
}

/** The trade authority as the source runs it: each command re-reads its row under lock, changes its
    fields, and records the transition (src/apps/trades/services.py:32-154). */
module TradeAuthority {
  import opened Base
  import opened Accounts
  import opened Trades

  /** The locked row of one trade; Record appends to its history. */
  class TradeRow {
    const product: nat
    const seller: nat
    const buyer: Option<nat>
    var status: Status
    var version: nat
    var completedAt: Option<int>
    var history: seq<Entry>

    constructor Load(t: Trade)
      ensures View() == t
    {
      product, seller, buyer := t.product, t.seller, t.buyer;
      status, version, completedAt, history := t.status, t.version, t.completedAt, t.history;
    }

    function View(): Trade
      reads this
    {
      Trade(product, seller, buyer, status, version, completedAt, history)
    }

    /** _record */
    method Record(oldStatus: Option<Status>, actor: nat)
      modifies this`history
      ensures history == old(history) + [Entry(oldStatus, status, actor, version)]
    {
      history := history + [Entry(oldStatus, status, actor, version)];
    }

    method Cancel(actor: nat)
      modifies this
      ensures View() == Moved(old(View()), Cancelled, actor, old(completedAt))
    {
      var oldStatus := status;
      status := Cancelled;
      version := version + 1;
      Record(Some(oldStatus), actor);
    }

    method Complete(actor: nat, now: int)
      modifies this
      ensures View() == Moved(old(View()), Completed, actor, Some(now))
    {
      var oldStatus := status;
      status := Completed;
      completedAt := Some(now);
      version := version + 1;
      Record(Some(oldStatus), actor);
    }
  }

  class Service {
    var users: seq<User>
    var products: seq<Product>
    var trades: seq<Trade>

    constructor (users: seq<User>, products: seq<Product>)
      ensures this.users == users && this.products == products && trades == []
    {
      this.users, this.products, trades := users, products, [];
    }

    /** _lock_active_users: false where the source raises. */
    method LockActiveUsers(ids: seq<nat>) returns (ok: bool)
      ensures ok <==> forall k :: 0 <= k < |ids| ==> MayTrade(users, ids[k])
    {
      for k := 0 to |ids|
        invariant forall l :: 0 <= l < k ==> MayTrade(users, ids[l])
      {
        if ids[k] >= |users| || !users[ids[k]].isActive || users[ids[k]].withdrawn || users[ids[k]].dormant {
          return false;
        }
      }
      return true;
    }

    method Reserve(actor: nat, product: nat) returns (r: Outcome)
      modifies this`trades
      ensures (trades, r) == Trades.Reserve(users, products, old(trades), actor, product)
    {
      if product >= |products| || actor == products[product].owner || products[product].hidden {
        return NotAllowed;
      }
      var owner := products[product].owner;
      var parties := [actor, owner];
      var ok := LockActiveUsers(parties);
      assert ok <==> MayTrade(users, parties[0]) && MayTrade(users, parties[1]);
      if !ok {
        return NotAllowed;
      }
      var existing := FindOpen(trades, product);
      if existing.Some? {
        var t := trades[existing.value];
        if t.status.Reserved? && t.buyer == Some(actor) {
          return Done(existing.value, false);
        }
        return Conflict;
      }
      var row := new TradeRow.Load(Trade(product, owner, Some(actor), Reserved, 1, None, []));
      row.Record(None, actor);
      assert row.View().history == [Entry(None, Reserved, actor, 1)];
      trades := trades + [row.View()];
      return Done(|trades| - 1, true);
    }

    method Cancel(actor: nat, id: nat, expected: Option<nat>) returns (r: Outcome)
      modifies this`trades
      ensures (trades, r) == Trades.Cancel(users, old(trades), actor, id, expected)
    {
      if id >= |trades| || (actor != trades[id].seller && Some(actor) != trades[id].buyer) {
        return NotAllowed;
      }
      if trades[id].buyer.None? {
        return ServerError;
      }
      var parties := [trades[id].seller, trades[id].buyer.value];
      var ok := LockActiveUsers(parties);
      assert ok <==> MayTrade(users, parties[0]) && MayTrade(users, parties[1]);
      if !ok {
        return NotAllowed;
      }
      var row := new TradeRow.Load(trades[id]);
      if row.status.Cancelled? {
        return Done(id, false);
      }
      if !row.status.Reserved? {
        return Conflict;
      }
      if expected.Some? && row.version != expected.value {
        return Conflict;
      }
      row.Cancel(actor);
      trades := trades[id := row.View()];
      return Done(id, false);
    }

    method Complete(actor: nat, id: nat, expected: Option<nat>, now: int) returns (r: Outcome)
      modifies this`trades
      ensures (trades, r) == Trades.Complete(users, old(trades), actor, id, expected, now)
    {
      if id >= |trades| || actor != trades[id].seller {
        return NotAllowed;
      }
      if trades[id].buyer.None? {
        return ServerError;
      }
      var parties := [trades[id].seller, trades[id].buyer.value];
      var ok := LockActiveUsers(parties);
      assert ok <==> MayTrade(users, parties[0]) && MayTrade(users, parties[1]);
      if !ok {
        return NotAllowed;
      }
      var row := new TradeRow.Load(trades[id]);
      if row.status.Completed? {
        return Done(id, false);
      }
      if !row.status.Reserved? {
        return Conflict;
      }
      if expected.Some? && row.version != expected.value {
        return Conflict;
      }
      row.Complete(actor, now);
      trades := trades[id := row.View()];
      return Done(id, false);
    }

    /** effective_product_state */
    method EffectiveProductState(product: nat) returns (state: ProductState)
      ensures state == EffectiveState(trades, product)
    {
      var first := FindOpen(trades, product);
      state := if first.None? then Available
               else if trades[first.value].status.Completed? then Sold else InReserve;
    }
  }
}

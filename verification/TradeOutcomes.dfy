/** When a trade command takes effect, what it then leaves, and what it answers otherwise, told from the rows
    alone (src/apps/trades/services.py:32-154). */
module TradeOutcomes {
  import opened Base
  import opened Accounts
  import opened Trades
  import TradeRuns

  predicate Live(users: seq<User>, id: nat) {
    id < |users| && users[id].isActive && !users[id].withdrawn && !users[id].dormant
  }

  /** Every row but one is as it was. */
  predicate OthersKept(before: seq<Trade>, after: seq<Trade>, id: nat) {
    |after| == |before| && forall i :: 0 <= i < |before| && i != id ==> after[i] == before[i]
  }

  /** The row ended: same trade and parties, next version, one more history entry. */
  predicate Ended(t: Trade, after: Trade, to: Status, actor: nat, completedAt: Option<int>) {
    && after.product == t.product && after.seller == t.seller && after.buyer == t.buyer
    && after.status == to && after.version == t.version + 1 && after.completedAt == completedAt
    && after.history == t.history + [Entry(Some(Reserved), to, actor, t.version + 1)]
  }

  predicate Current(t: Trade, expected: Option<nat>) {
    expected.None? || t.version == expected.value
  }

  /** Completing is the seller's, between live parties, of a reserved row in the version expected; it then
      completes that row and nothing else. Every refusal leaves the table and has its own answer. */
  lemma CompleteOutcome(users: seq<User>, trades: seq<Trade>, actor: nat, id: nat, expected: Option<nat>, now: int)
    requires id < |trades| && trades[id].buyer.Some?
    ensures var (after, outcome) := Complete(users, trades, actor, id, expected, now);
            var t := trades[id];
            var permitted := actor == t.seller && Live(users, t.seller) && Live(users, t.buyer.value);
            if permitted && t.status.Reserved? && Current(t, expected) then
              outcome == Done(id, false) && OthersKept(trades, after, id) && Ended(t, after[id], Completed, actor, Some(now))
            else
              && after == trades
              && outcome == if !permitted then NotAllowed else if t.status.Completed? then Done(id, false) else Conflict
  {
  }

  /** Cancelling is either party's, under the same conditions. */
  lemma CancelOutcome(users: seq<User>, trades: seq<Trade>, actor: nat, id: nat, expected: Option<nat>)
    requires id < |trades| && trades[id].buyer.Some?
    ensures var (after, outcome) := Cancel(users, trades, actor, id, expected);
            var t := trades[id];
            var permitted := (actor == t.seller || actor == t.buyer.value) && Live(users, t.seller) && Live(users, t.buyer.value);
            if permitted && t.status.Reserved? && Current(t, expected) then
              outcome == Done(id, false) && OthersKept(trades, after, id) && Ended(t, after[id], Cancelled, actor, t.completedAt)
            else
              && after == trades
              && outcome == if !permitted then NotAllowed else if t.status.Cancelled? then Done(id, false) else Conflict
  {
  }

  /** A trade that does not exist, and a legacy sale, can be neither completed nor cancelled. */
  lemma NoSuchTrade(users: seq<User>, trades: seq<Trade>, actor: nat, id: nat, expected: Option<nat>, now: int)
    requires id < |trades| ==> trades[id].buyer.None?
    ensures var (completed, cancelled) := (Complete(users, trades, actor, id, expected, now), Cancel(users, trades, actor, id, expected));
            && completed.0 == trades && cancelled.0 == trades && completed.1 == cancelled.1
            && completed.1 == if id < |trades| && actor == trades[id].seller then ServerError else NotAllowed
  {
  }

  ghost predicate AnyOpen(trades: seq<Trade>, product: nat) {
    exists i :: 0 <= i < |trades| && trades[i].product == product && !trades[i].status.Cancelled?
  }

  /** Reserving is for a live user who does not own the product, with a live owner, while it is not hidden;
      a product without an open trade then gets one, owned by its owner, and nothing else changes. */
  lemma ReserveOutcome(users: seq<User>, products: seq<Product>, trades: seq<Trade>, actor: nat, product: nat)
    ensures var (after, outcome) := Reserve(users, products, trades, actor, product);
            var permitted := && product < |products| && actor != products[product].owner && !products[product].hidden
                             && Live(users, actor) && Live(users, products[product].owner);
            && (outcome.NotAllowed? <==> !permitted)
            && (permitted && !AnyOpen(trades, product) ==>
                  && outcome == Done(|trades|, true) && |after| == |trades| + 1 && after[..|trades|] == trades
                  && after[|trades|] == Trade(product, products[product].owner, Some(actor), Reserved, 1, None, [Entry(None, Reserved, actor, 1)]))
            && (!permitted || AnyOpen(trades, product) ==> after == trades)
            && (permitted && AnyOpen(trades, product) ==>
                  || outcome.Conflict?
                  || (outcome.Done? && !outcome.created && outcome.trade < |trades| && trades[outcome.trade].product == product
                      && trades[outcome.trade].status.Reserved? && trades[outcome.trade].buyer == Some(actor)))
  {
    var found := FindOpen(trades, product);
    assert AnyOpen(trades, product) <==> found.Some? by {
      if found.Some? {
        assert OpenOn(trades[found.value], product);
      }
      if i :| 0 <= i < |trades| && trades[i].product == product && !trades[i].status.Cancelled? {
        assert OpenOn(trades[i], product);
      }
    }
  }

  // ---------- The product afterwards ----------

  lemma OnlyOpenTrade(products: seq<Product>, trades: seq<Trade>, id: nat)
    requires TradeRuns.Inv(products, trades) && id < |trades| && trades[id].status.Reserved?
    ensures forall i :: 0 <= i < |trades| && trades[i].product == trades[id].product && i != id ==> trades[i].status.Cancelled?
  {
    assert forall i :: id < i < |trades| ==> trades[i].product != trades[id].product;
  }

  /** A completed trade sells its product; a cancelled one frees it. */
  lemma ProductAfterwards(users: seq<User>, products: seq<Product>, trades: seq<Trade>, actor: nat, id: nat, expected: Option<nat>, now: int)
    requires TradeRuns.Inv(products, trades) && id < |trades| && trades[id].status.Reserved?
    ensures var after := Complete(users, trades, actor, id, expected, now).0;
            after != trades ==> EffectiveState(after, trades[id].product).Sold?
    ensures var after := Cancel(users, trades, actor, id, expected).0;
            after != trades ==> EffectiveState(after, trades[id].product).Available?
  {
    OnlyOpenTrade(products, trades, id);
    var product := trades[id].product;
    var completed := Complete(users, trades, actor, id, expected, now).0;
    var cancelled := Cancel(users, trades, actor, id, expected).0;
    if completed != trades {
      assert OpenOn(completed[id], product);
    }
    if cancelled != trades {
      forall i | 0 <= i < |cancelled| ensures !OpenOn(cancelled[i], product) {
      }
    }
  }
}

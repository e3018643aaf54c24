/** The trade lifecycle (src/apps/trades/services.py:32-154): a versioned state machine with an
    append-only history. */
module Trades {
  import opened Base
  import opened Accounts

  datatype Status = Reserved | Cancelled | Completed

  datatype Entry = Entry(from: Option<Status>, to: Status, actor: nat, version: nat)

  /** A row without a buyer is a LEGACY_SOLD one (src/apps/trades/models.py:50-65); history is what
      TradeStatusHistory holds for the row. */
  datatype Trade = Trade(product: nat, seller: nat, buyer: Option<nat>, status: Status, version: nat,
                         completedAt: Option<int>, history: seq<Entry>)

  /** hidden: an unreleased hide action runs now. */
  datatype Product = Product(owner: nat, archived: bool, hidden: bool, version: nat)

  datatype Outcome = Done(trade: nat, created: bool) | NotAllowed | Conflict | ServerError

  predicate Open(t: Trade) {
    t.status.Reserved? || t.status.Completed?
  }

  predicate OpenOn(t: Trade, product: nat) {
    t.product == product && Open(t)
  }

  /** The newest open trade of a product. */
  function FindOpen(trades: seq<Trade>, product: nat): (r: Option<nat>)
    ensures r.Some? ==> r.value < |trades| && OpenOn(trades[r.value], product)
    ensures r.None? ==> forall i :: 0 <= i < |trades| ==> !OpenOn(trades[i], product)
  {
    if trades == [] then None
    else
      var n := |trades| - 1;
      if OpenOn(trades[n], product) then Some(n) else FindOpen(trades[..n], product)
  }

  predicate MayTradeBoth(users: seq<User>, a: nat, b: nat) {
    MayTrade(users, a) && MayTrade(users, b)
  }

  function NewTrade(product: nat, seller: nat, buyer: nat): Trade {
    Trade(product, seller, Some(buyer), Reserved, 1, None, [Entry(None, Reserved, buyer, 1)])
  }

  function Reserve(users: seq<User>, products: seq<Product>, trades: seq<Trade>, actor: nat, product: nat): (seq<Trade>, Outcome) {
    if product >= |products| || actor == products[product].owner || products[product].hidden then (trades, NotAllowed)
    else if !MayTradeBoth(users, actor, products[product].owner) then (trades, NotAllowed)
    else
      match FindOpen(trades, product)
      case Some(i) =>
        if trades[i].status.Reserved? && trades[i].buyer == Some(actor) then (trades, Done(i, false)) else (trades, Conflict)
      case None => (trades + [NewTrade(product, products[product].owner, actor)], Done(|trades|, true))
  }

  /** The row after leaving its present status, with the history entry that records it. */
  function Moved(t: Trade, to: Status, actor: nat, completedAt: Option<int>): Trade {
    t.(status := to, version := t.version + 1, completedAt := completedAt,
       history := t.history + [Entry(Some(t.status), to, actor, t.version + 1)])
  }

  predicate Stale(t: Trade, expected: Option<nat>) {
    expected.Some? && t.version != expected.value
  }

  function Cancel(users: seq<User>, trades: seq<Trade>, actor: nat, id: nat, expected: Option<nat>): (seq<Trade>, Outcome) {
    if id >= |trades| || (actor != trades[id].seller && Some(actor) != trades[id].buyer) then (trades, NotAllowed)
    else
      var t := trades[id];
      match t.buyer
      case None => (trades, ServerError)
      case Some(buyer) =>
        if !MayTradeBoth(users, t.seller, buyer) then (trades, NotAllowed)
        else if t.status.Cancelled? then (trades, Done(id, false))
        else if !t.status.Reserved? || Stale(t, expected) then (trades, Conflict)
        else (trades[id := Moved(t, Cancelled, actor, t.completedAt)], Done(id, false))
  }

  function Complete(users: seq<User>, trades: seq<Trade>, actor: nat, id: nat, expected: Option<nat>, now: int): (seq<Trade>, Outcome) {
    if id >= |trades| || actor != trades[id].seller then (trades, NotAllowed)
    else
      var t := trades[id];
      match t.buyer
      case None => (trades, ServerError)
      case Some(buyer) =>
        if !MayTradeBoth(users, t.seller, buyer) then (trades, NotAllowed)
        else if t.status.Completed? then (trades, Done(id, false))
        else if !t.status.Reserved? || Stale(t, expected) then (trades, Conflict)
        else (trades[id := Moved(t, Completed, actor, Some(now))], Done(id, false))
  }

  // ---------- Projection ----------

  datatype ProductState = Available | InReserve | Sold

  /** What the projector makes of the row it picked, if any. */
  function ProjectRow(trades: seq<Trade>, picked: Option<nat>): ProductState
    requires picked.Some? ==> picked.value < |trades|
  {
    match picked
    case None => Available
    case Some(i) => if trades[i].status.Completed? then Sold else if trades[i].status.Reserved? then InReserve else Available
  }

  /** effective_product_state with its query answered by any of the open rows. */
  ghost predicate MayPick(trades: seq<Trade>, product: nat, picked: Option<nat>) {
    match picked
    case Some(i) => i < |trades| && OpenOn(trades[i], product)
    case None => forall i :: 0 <= i < |trades| ==> !OpenOn(trades[i], product)
  }

  function EffectiveState(trades: seq<Trade>, product: nat): ProductState {
    ProjectRow(trades, FindOpen(trades, product))
  }
}

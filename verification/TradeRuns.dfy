/** Every run of trade commands from a table without standard trades: one open trade for each product,
    a history that explains every row, and final outcomes (src/apps/trades/services.py:64-154,
    src/apps/catalog/projectors.py:19-41). */
module TradeRuns {
  import opened Base
  import opened Accounts
  import opened Trades

  // ---------- The invariant ----------

  /** Earlier trades of a product are all cancelled. */
  ghost predicate OnlyLastOpen(trades: seq<Trade>) {
    forall i, j :: 0 <= i < j < |trades| && trades[i].product == trades[j].product ==> trades[i].status.Cancelled?
  }

  /** The status before entry k: none before the first. */
  function StatusBefore(h: seq<Entry>, k: nat): Option<Status>
    requires k <= |h|
  {
    if k == 0 then None else Some(h[k - 1].to)
  }

  predicate Linked(h: seq<Entry>, k: nat)
    requires k < |h|
  {
    h[k].version == k + 1 && h[k].from == StatusBefore(h, k)
  }

  /** Versions 1, 2, ... and each entry starting where the one before it ended. */
  ghost predicate Chain(h: seq<Entry>) {
    forall k :: 0 <= k < |h| ==> Linked(h, k)
  }

  predicate IsFinal(s: Status) {
    s.Cancelled? || s.Completed?
  }

  ghost predicate Explained(t: Trade) {
    && Chain(t.history)
    && |t.history| == t.version >= 1
    && t.history[|t.history| - 1].to == t.status
    && (forall k :: 0 <= k < |t.history| - 1 ==> t.history[k].to.Reserved?)
    && t.history[0].to.Reserved? && Some(t.history[0].actor) == t.buyer
    && (t.status.Cancelled? ==> t.version > 1 && (t.history[t.version - 1].actor == t.seller || Some(t.history[t.version - 1].actor) == t.buyer))
    && (t.status.Completed? ==> t.version > 1 && t.history[t.version - 1].actor == t.seller)
  }

  ghost predicate RowSound(products: seq<Product>, t: Trade) {
    && t.product < |products| && t.seller == products[t.product].owner
    && (t.completedAt.Some? <==> t.status.Completed?)
    && (match t.buyer
        case None => t.status.Completed?
        case Some(b) => b != t.seller && Explained(t))
  }

  ghost predicate Inv(products: seq<Product>, trades: seq<Trade>) {
    && OnlyLastOpen(trades)
    && (forall i :: 0 <= i < |trades| ==> RowSound(products, trades[i]))
  }

  lemma ReserveKeepsInv(users: seq<User>, products: seq<Product>, trades: seq<Trade>, actor: nat, product: nat)
    requires Inv(products, trades)
    ensures Inv(products, Reserve(users, products, trades, actor, product).0)
  {
  }

  lemma ChainExtends(h: seq<Entry>, to: Status, actor: nat)
    requires Chain(h) && |h| > 0
    ensures Chain(h + [Entry(Some(h[|h| - 1].to), to, actor, |h| + 1)])
  {
    var longer := h + [Entry(Some(h[|h| - 1].to), to, actor, |h| + 1)];
    forall k | 0 <= k < |longer| ensures Linked(longer, k) {
      assert k < |h| ==> Linked(h, k) && longer[k] == h[k];
    }
  }

  predicate MayMove(t: Trade, to: Status, actor: nat) {
    || (to.Cancelled? && (actor == t.seller || Some(actor) == t.buyer))
    || (to.Completed? && actor == t.seller)
  }

  lemma MovedIsExplained(t: Trade, to: Status, actor: nat, completedAt: Option<int>)
    requires Explained(t) && t.status.Reserved? && MayMove(t, to, actor)
    ensures Explained(Moved(t, to, actor, completedAt))
  {
    ChainExtends(t.history, to, actor);
  }

  lemma MovedIsSound(products: seq<Product>, t: Trade, to: Status, actor: nat, completedAt: Option<int>)
    requires RowSound(products, t) && t.status.Reserved? && MayMove(t, to, actor)
    requires completedAt.Some? <==> to.Completed?
    ensures RowSound(products, Moved(t, to, actor, completedAt))
  {
    MovedIsExplained(t, to, actor, completedAt);
  }

  lemma CancelKeepsInv(users: seq<User>, products: seq<Product>, trades: seq<Trade>, actor: nat, id: nat, expected: Option<nat>)
    requires Inv(products, trades)
    ensures Inv(products, Cancel(users, trades, actor, id, expected).0)
  {
    if id < |trades| && trades[id].status.Reserved? && trades[id].buyer.Some? && (actor == trades[id].seller || Some(actor) == trades[id].buyer) {
      MovedIsSound(products, trades[id], Cancelled, actor, trades[id].completedAt);
    }
  }

  lemma CompleteKeepsInv(users: seq<User>, products: seq<Product>, trades: seq<Trade>, actor: nat, id: nat, expected: Option<nat>, now: int)
    requires Inv(products, trades)
    ensures Inv(products, Complete(users, trades, actor, id, expected, now).0)
  {
    if id < |trades| && trades[id].status.Reserved? && trades[id].buyer.Some? && actor == trades[id].seller {
      MovedIsSound(products, trades[id], Completed, actor, Some(now));
    }
  }

  // ---------- Runs ----------

  datatype State = State(users: seq<User>, products: seq<Product>, trades: seq<Trade>)

  /** Elsewhere: anything the rest of the repository does to users and products. */
  datatype Command =
    | Reserving(actor: nat, product: nat)
    | Cancelling(actor: nat, trade: nat, expected: Option<nat>)
    | Completing(actor: nat, trade: nat, expected: Option<nat>, now: int)
    | Elsewhere(users: seq<User>, products: seq<Product>)

  /** Products are never deleted and never change owner. */
  predicate OwnersKept(before: seq<Product>, after: seq<Product>) {
    |before| <= |after| && forall i :: 0 <= i < |before| ==> after[i].owner == before[i].owner
  }

  predicate Possible(s: State, c: Command) {
    c.Elsewhere? ==> OwnersKept(s.products, c.products)
  }

  function Step(s: State, c: Command): State {
    match c
    case Reserving(actor, product) => s.(trades := Reserve(s.users, s.products, s.trades, actor, product).0)
    case Cancelling(actor, id, expected) => s.(trades := Cancel(s.users, s.trades, actor, id, expected).0)
    case Completing(actor, id, expected, now) => s.(trades := Complete(s.users, s.trades, actor, id, expected, now).0)
    case Elsewhere(users, products) => State(users, products, s.trades)
  }

  ghost predicate PossibleRun(s: State, run: seq<Command>)
    decreases |run|
  {
    run == [] || (Possible(s, run[0]) && PossibleRun(Step(s, run[0]), run[1..]))
  }

  function Run(s: State, run: seq<Command>): State
    decreases |run|
  {
    if run == [] then s else Run(Step(s, run[0]), run[1..])
  }

  lemma StepKeepsInv(s: State, c: Command)
    requires Inv(s.products, s.trades) && Possible(s, c)
    ensures Inv(Step(s, c).products, Step(s, c).trades)
  {
    match c {
      case Reserving(actor, product) => ReserveKeepsInv(s.users, s.products, s.trades, actor, product);
      case Cancelling(actor, id, expected) => CancelKeepsInv(s.users, s.products, s.trades, actor, id, expected);
      case Completing(actor, id, expected, now) => CompleteKeepsInv(s.users, s.products, s.trades, actor, id, expected, now);
      case Elsewhere(users, products) =>
        forall i | 0 <= i < |s.trades| ensures RowSound(products, s.trades[i]) {
          assert RowSound(s.products, s.trades[i]);
        }
    }
  }

  lemma {:induction false} RunKeepsInv(s: State, run: seq<Command>)
    requires Inv(s.products, s.trades) && PossibleRun(s, run)
    ensures Inv(Run(s, run).products, Run(s, run).trades)
    decreases |run|
  {
    if run != [] {
      StepKeepsInv(s, run[0]);
      RunKeepsInv(Step(s, run[0]), run[1..]);
    }
  }

  /** Only legacy sales so far, one for each product at most. */
  ghost predicate NoStandardTrades(s: State) {
    && (forall i, j :: 0 <= i < j < |s.trades| ==> s.trades[i].product != s.trades[j].product)
    && (forall i :: 0 <= i < |s.trades| ==>
          && s.trades[i].buyer.None? && s.trades[i].status.Completed? && s.trades[i].completedAt.Some?
          && s.trades[i].product < |s.products| && s.trades[i].seller == s.products[s.trades[i].product].owner)
  }

  // ---------- Main results ----------

  /** In every run: cancelled trades of a product come first, and every row is explained. */
  lemma EveryRunIsExplained(s: State, run: seq<Command>, i: nat, j: nat)
    requires NoStandardTrades(s) && PossibleRun(s, run)
    ensures var after := Run(s, run);
            && (i < j < |after.trades| && after.trades[i].product == after.trades[j].product ==> after.trades[i].status.Cancelled?)
            && (i < |after.trades| && after.trades[i].buyer.Some? ==>
                  after.trades[i].buyer.value != after.trades[i].seller && Explained(after.trades[i]))
  {
    RunKeepsInv(s, run);
    var after := Run(s, run);
    assert i < |after.trades| ==> RowSound(after.products, after.trades[i]);
  }

  /** Rows are never deleted, keep their parties, and never change again once final; the history only
      ever grows. */
  predicate Later(t: Trade, after: Trade) {
    && after.product == t.product && after.seller == t.seller && after.buyer == t.buyer
    && t.history <= after.history
    && (IsFinal(t.status) ==> after == t)
  }

  lemma StepKeepsRow(s: State, c: Command, i: nat)
    requires i < |s.trades|
    ensures i < |Step(s, c).trades| && Later(s.trades[i], Step(s, c).trades[i])
  {
  }

  lemma {:induction false} FinalStaysFinal(s: State, run: seq<Command>, i: nat)
    requires i < |s.trades|
    ensures i < |Run(s, run).trades| && Later(s.trades[i], Run(s, run).trades[i])
    decreases |run|
  {
    if run != [] {
      StepKeepsRow(s, run[0], i);
      FinalStaysFinal(Step(s, run[0]), run[1..], i);
    }
  }

  /** A reserved trade takes at most one more step: of two commands carrying the version a party saw,
      only the first can change the row. */
  lemma StaleVersionChangesNothing(s: State, run: seq<Command>, users: seq<User>, id: nat, actor: nat, now: int)
    requires Inv(s.products, s.trades) && PossibleRun(s, run) && id < |s.trades|
    ensures var trades := Run(s, run).trades; var seen := Some(s.trades[id].version);
            && id < |trades|
            && (trades[id] != s.trades[id] ==>
                  && Cancel(users, trades, actor, id, seen).0 == trades
                  && Complete(users, trades, actor, id, seen, now).0 == trades)
  {
    RunKeepsInv(s, run);
    FinalStaysFinal(s, run, id);
    var (t, after) := (s.trades[id], Run(s, run).trades[id]);
    assert RowSound(s.products, t) && RowSound(Run(s, run).products, after);
  }

  // ---------- Projection ----------

  predicate HasStatus(t: Trade, product: nat, status: Status) {
    t.product == product && t.status == status
  }

  ghost predicate AnyWith(trades: seq<Trade>, product: nat, status: Status) {
    exists i :: 0 <= i < |trades| && HasStatus(trades[i], product, status)
  }

  /** Whichever open row the query returns first, the projected state is the same one. */
  lemma ProjectionIgnoresOrder(s: State, run: seq<Command>, product: nat, picked: Option<nat>)
    requires NoStandardTrades(s) && PossibleRun(s, run)
    requires MayPick(Run(s, run).trades, product, picked)
    ensures var trades := Run(s, run).trades;
            && ProjectRow(trades, picked) == EffectiveState(trades, product)
            && (ProjectRow(trades, picked).Sold? <==> AnyWith(trades, product, Completed))
            && (ProjectRow(trades, picked).InReserve? <==> AnyWith(trades, product, Reserved))
  {
    RunKeepsInv(s, run);
    var trades := Run(s, run).trades;
    var found := FindOpen(trades, product);
    if picked.Some? {
      assert HasStatus(trades[picked.value], product, trades[picked.value].status);
      forall i | 0 <= i < |trades| && OpenOn(trades[i], product) ensures i == picked.value {
      }
    }
  }

  /** The projection decides a reservation by permitted parties: a new trade exactly when available, and
      the same trade again exactly for the buyer holding it. */
  lemma ReserveFollowsProjection(users: seq<User>, products: seq<Product>, trades: seq<Trade>, actor: nat, product: nat)
    requires product < |products| && actor != products[product].owner && !products[product].hidden
    requires MayTradeBoth(users, actor, products[product].owner)
    ensures var (after, outcome) := Reserve(users, products, trades, actor, product);
            && (EffectiveState(trades, product).Available? <==> outcome == Done(|trades|, true))
            && (outcome.Done? ==> EffectiveState(after, product).InReserve? && after[outcome.trade].buyer == Some(actor))
            && (outcome.Conflict? ==> after == trades)
            && !outcome.NotAllowed? && !outcome.ServerError?
  {
    var after := Reserve(users, products, trades, actor, product).0;
    if after != trades {
      assert after[..|trades|] == trades;
    }
  }
}

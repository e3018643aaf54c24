/** The tables that account withdrawal touches, and every command of the other modules that writes them:
    src/apps/accounts/withdrawal.py:48-154, src/apps/catalog/engagement.py:19-68,
    src/apps/notifications/services.py:39-58, 124-146, and the trade and ledger commands. */
module Market {
  import opened Base
  import opened Accounts
  import Ledger
  import LedgerInvariant
  import Trades

  /** favorites: (user, product); inbox: (recipient, event key) of the notifications that no transfer
      made; metrics: the favorite_count column by product; tasks: (user, auth epoch). */
  datatype State = State(
    users: seq<User>,
    epochs: map<nat, nat>,
    ledger: Ledger.Tables,
    products: seq<Trades.Product>,
    trades: seq<Trades.Trade>,
    favorites: set<(nat, nat)>,
    metrics: map<nat, nat>,
    inbox: set<(nat, string)>,
    tasks: set<(nat, nat)>)

  function EpochOf(s: State, user: nat): nat {
    if user in s.epochs then s.epochs[user] else 0
  }

  // ---------- Favorites and their projection ----------

  function FansOf(favorites: set<(nat, nat)>, product: nat): set<(nat, nat)> {
    set f | f in favorites && f.1 == product
  }

  function FavoritesOf(favorites: set<(nat, nat)>, user: nat): set<(nat, nat)> {
    set f | f in favorites && f.0 == user
  }

  function Recompute(s: State, product: nat): State {
    s.(metrics := s.metrics[product := |FansOf(s.favorites, product)|])
  }

  datatype Engagement = Applied | Denied | ServerError

  function SetFavorite(s: State, user: nat, product: nat, active: bool): (State, Engagement) {
    if !IsLive(s.users, user) then (s, Denied)
    else if product >= |s.products| then (s, ServerError)
    else
      var favorites := if active then s.favorites + {(user, product)} else s.favorites - {(user, product)};
      (Recompute(s.(favorites := favorites), product), Applied)
  }

  // ---------- Notifications ----------

  datatype Delivery = Created | Known | Refused | BadKey

  function CreateNotification(s: State, recipient: nat, key: string): (State, Delivery) {
    if key == "" || |key| > 160 then (s, BadKey)
    else if !IsLive(s.users, recipient) then (s, Refused)
    else if (recipient, key) in s.inbox then (s, Known)
    else (s.(inbox := s.inbox + {(recipient, key)}), Created)
  }

  // ---------- Withdrawal ----------

  datatype Withdrawal = Withdrawn(epoch: nat, created: bool) | Blocked | Unavailable

  predicate Party(t: Trades.Trade, user: nat) {
    t.seller == user || t.buyer == Some(user)
  }

  predicate HasReserved(trades: seq<Trades.Trade>, user: nat) {
    exists i :: 0 <= i < |trades| && Party(trades[i], user) && trades[i].status.Reserved?
  }

  predicate SoldBy(trades: seq<Trades.Trade>, user: nat, product: nat) {
    exists i :: 0 <= i < |trades| && Party(trades[i], user) && trades[i].status.Completed? && trades[i].product == product
  }

  predicate Archives(s: State, user: nat, product: nat)
    requires product < |s.products|
  {
    s.products[product].owner == user && !s.products[product].archived && !SoldBy(s.trades, user, product)
  }

  function ArchiveAll(s: State, user: nat): seq<Trades.Product> {
    seq(|s.products|, p requires 0 <= p < |s.products| =>
      if Archives(s, user, p) then s.products[p].(archived := true, version := s.products[p].version + 1) else s.products[p])
  }

  /** The counts of the products a user no longer favors. */
  function Recounted(metrics: map<nat, nat>, favorites: set<(nat, nat)>, products: set<nat>): map<nat, nat> {
    map p | p in metrics.Keys + products :: if p in products then |FansOf(favorites, p)| else metrics[p]
  }

  function Unaddressed(inbox: set<(nat, string)>, user: nat): set<(nat, string)> {
    set n | n in inbox && n.0 != user
  }

  /** The user's account closed and its transfer notifications gone. */
  function Forgotten(l: Ledger.Tables, user: nat, account: nat): Ledger.Tables
    requires account < |l.accounts|
  {
    Ledger.CloseEmpty(l, account).(notices := set n | n in l.notices && n.recipient != user)
  }

  function Erase(s: State, user: nat, account: nat): State
    requires user < |s.users| && account < |s.ledger.accounts|
  {
    var favorites := s.favorites - FavoritesOf(s.favorites, user);
    var epoch := EpochOf(s, user) + 1;
    State(s.users[user := s.users[user].(isActive := false, withdrawn := true)],
          s.epochs[user := epoch],
          Forgotten(s.ledger, user, account),
          ArchiveAll(s, user),
          s.trades,
          favorites,
          Recounted(s.metrics, favorites, (set f | f in FavoritesOf(s.favorites, user) :: f.1)),
          Unaddressed(s.inbox, user),
          s.tasks + {(user, epoch)})
  }

  /** retained: the retained authorities could all be read. */
  function Withdraw(s: State, user: nat, passwordOk: bool, retained: bool): (State, Withdrawal) {
    if user >= |s.users| then (s, Unavailable)
    else if s.users[user].withdrawn then
      (s, if (user, EpochOf(s, user)) in s.tasks then Withdrawn(EpochOf(s, user), false) else Unavailable)
    else if !s.users[user].isActive || !passwordOk then (s, Blocked)
    else if HasReserved(s.trades, user) then (s, Blocked)
    else
      match Ledger.FindAccount(s.ledger.accounts, user)
      case None => (s, Unavailable)
      case Some(account) =>
        if s.ledger.accounts[account].balance != 0 then (s, Blocked)
        else if !retained then (s, Unavailable)
        else
          var epoch := EpochOf(s, user) + 1;
          (Erase(s, user, account), Withdrawn(epoch, (user, epoch) !in s.tasks))
  }

  // ---------- Every writer of these tables ----------

  /** Purging drops any expired notifications; Elsewhere is the rest of the repository, which changes
      users, products and epochs but neither sets nor clears a withdrawal, an owner or an archival. */
  datatype Command =
    | Withdrawing(user: nat, passwordOk: bool, retained: bool)
    | Seeding(user: nat)
    | Paying(sender: nat, name: string, cents: nat, key: nat, faults: seq<Ledger.Fault>)
    | PayingRoom(rooms: map<nat, Ledger.Conversation>, sender: nat, room: nat, cents: nat, key: nat, faults: seq<Ledger.Fault>)
    | Closing(user: nat)
    | Reconciling(resume: Option<nat>, maintainer: bool, incident: nat)
    | Reserving(actor: nat, product: nat)
    | Cancelling(actor: nat, trade: nat, expected: Option<nat>)
    | Completing(actor: nat, trade: nat, expected: Option<nat>, now: int)
    | Favoriting(user: nat, product: nat, active: bool)
    | Notifying(recipient: nat, event: string)
    | Purging(notices: set<Ledger.Notice>, inbox: set<(nat, string)>)
    | Elsewhere(users: seq<User>, products: seq<Trades.Product>, epochs: map<nat, nat>)

  predicate UsersKept(before: seq<User>, after: seq<User>) {
    && |before| <= |after|
    && forall u :: 0 <= u < |after| ==> (after[u].withdrawn <==> u < |before| && before[u].withdrawn)
  }

  predicate ProductsKept(before: seq<Trades.Product>, after: seq<Trades.Product>) {
    && |before| <= |after|
    && forall p :: 0 <= p < |before| ==>
         after[p].owner == before[p].owner && (before[p].archived ==> after[p].archived)
  }

  predicate Possible(s: State, c: Command) {
    match c
    case Paying(_, _, cents, _, faults) => cents > 0 && |faults| == 4
    case PayingRoom(_, _, _, cents, _, faults) => cents > 0 && |faults| == 4
    case Elsewhere(users, products, _) => UsersKept(s.users, users) && ProductsKept(s.products, products)
    case _ => true
  }

  /** The ledger command a market command is, reading the market's users. */
  function LedgerCommand(s: State, c: Command): Option<LedgerInvariant.Command> {
    match c
    case Seeding(user) => Some(LedgerInvariant.Seed(user))
    case Paying(sender, name, cents, key, faults) => Some(LedgerInvariant.ByName(s.users, sender, name, cents, key, faults))
    case PayingRoom(rooms, sender, room, cents, key, faults) =>
      Some(LedgerInvariant.ByRoom(s.users, rooms, sender, room, cents, key, faults))
    case Closing(user) => Some(LedgerInvariant.Close(user))
    case Reconciling(resume, maintainer, incident) => Some(LedgerInvariant.Check(resume, maintainer, incident))
    case _ => None
  }

  function Step(s: State, c: Command): State
    requires Possible(s, c)
  {
    match c
    case Withdrawing(user, passwordOk, retained) => Withdraw(s, user, passwordOk, retained).0
    case Reserving(actor, product) => s.(trades := Trades.Reserve(s.users, s.products, s.trades, actor, product).0)
    case Cancelling(actor, id, expected) => s.(trades := Trades.Cancel(s.users, s.trades, actor, id, expected).0)
    case Completing(actor, id, expected, now) => s.(trades := Trades.Complete(s.users, s.trades, actor, id, expected, now).0)
    case Favoriting(user, product, active) => SetFavorite(s, user, product, active).0
    case Notifying(recipient, key) => CreateNotification(s, recipient, key).0
    case Purging(notices, inbox) => s.(ledger := s.ledger.(notices := s.ledger.notices - notices), inbox := s.inbox - inbox)
    case Elsewhere(users, products, epochs) => s.(users := users, products := products, epochs := epochs)
    case _ => s.(ledger := LedgerInvariant.Step(s.ledger, LedgerCommand(s, c).value))
  }

  ghost predicate PossibleRun(s: State, run: seq<Command>)
    decreases |run|
  {
    run == [] || (Possible(s, run[0]) && PossibleRun(Step(s, run[0]), run[1..]))
  }

  function Run(s: State, run: seq<Command>): State
    requires PossibleRun(s, run)
    decreases |run|
  {
    if run == [] then s else Run(Step(s, run[0]), run[1..])
  }
}

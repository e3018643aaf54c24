/** Exactly what favorites, notifications and withdrawal change, told from the rows alone
    (src/apps/catalog/engagement.py:52-68, src/apps/notifications/services.py:39-58,
    src/apps/accounts/withdrawal.py:94-148). */
module MarketOutcomes {
  import opened Base
  import opened Accounts
  import opened Market
  import Ledger

  predicate Present(users: seq<User>, id: nat) {
    id < |users| && users[id].isActive && !users[id].withdrawn
  }

  /** A present user's command on an existing product leaves exactly that favorite on or off, and the
      product's count right; nothing else changes. */
  lemma FavoriteOutcome(s: State, user: nat, product: nat, active: bool)
    ensures var (after, outcome) := SetFavorite(s, user, product, active);
            if Present(s.users, user) && product < |s.products| then
              && outcome.Applied?
              && (forall u: nat, p: nat :: (u, p) in after.favorites <==> if u == user && p == product then active else (u, p) in s.favorites)
              && product in after.metrics && after.metrics[product] == |FansOf(after.favorites, product)|
              && (forall p :: p != product ==> (p in after.metrics <==> p in s.metrics) && (p in s.metrics ==> after.metrics[p] == s.metrics[p]))
              && after == s.(favorites := after.favorites, metrics := after.metrics)
            else
              after == s && outcome == if Present(s.users, user) then ServerError else Denied
  {
  }

  /** A valid key for a present recipient adds that one notification, once; any other call adds nothing. */
  lemma NotificationOutcome(s: State, recipient: nat, key: string)
    ensures var (after, outcome) := CreateNotification(s, recipient, key);
            var deliverable := 1 <= |key| <= 160 && Present(s.users, recipient);
            && (outcome.Created? <==> deliverable && (recipient, key) !in s.inbox)
            && (outcome.Known? <==> deliverable && (recipient, key) in s.inbox)
            && (deliverable ==> after.inbox == s.inbox + {(recipient, key)})
            && (!deliverable ==> after.inbox == s.inbox && (outcome.BadKey? <==> !(1 <= |key| <= 160)))
            && after == s.(inbox := after.inbox)
  {
  }

  // ---------- Withdrawal ----------

  /** Only the user's own rows go: the favorites and notifications of everyone else stay, and no money or
      history is touched. */
  lemma WithdrawalErasesOwnRows(s: State, user: nat, passwordOk: bool, retained: bool)
    requires Withdraw(s, user, passwordOk, retained).1.Withdrawn? && !s.users[user].withdrawn
    ensures var (after, i) := (Withdraw(s, user, passwordOk, retained).0, Ledger.FindAccount(s.ledger.accounts, user).value);
            && (forall f: (nat, nat) :: f in after.favorites <==> f in s.favorites && f.0 != user)
            && (forall n: (nat, string) :: n in after.inbox <==> n in s.inbox && n.0 != user)
            && (forall n :: n in after.ledger.notices <==> n in s.ledger.notices && n.recipient != user)
            && |after.ledger.accounts| == |s.ledger.accounts|
            && (forall a :: 0 <= a < |s.ledger.accounts| ==>
                  after.ledger.accounts[a] == if a == i then s.ledger.accounts[i].(isOpen := false) else s.ledger.accounts[a])
            && after.ledger == s.ledger.(accounts := after.ledger.accounts, notices := after.ledger.notices)
            && after.trades == s.trades
  {
  }

  /** The user alone becomes inactive and withdrawn, in the next epoch, for which one task stands. */
  lemma WithdrawalMarksTheUser(s: State, user: nat, passwordOk: bool, retained: bool)
    requires Withdraw(s, user, passwordOk, retained).1.Withdrawn? && !s.users[user].withdrawn
    ensures var (after, outcome) := Withdraw(s, user, passwordOk, retained);
            var epoch := 1 + (if user in s.epochs then s.epochs[user] else 0);
            && |after.users| == |s.users|
            && (forall u :: 0 <= u < |s.users| && u != user ==> after.users[u] == s.users[u])
            && !after.users[user].isActive && after.users[user].withdrawn && after.users[user].username == s.users[user].username
            && (forall u :: u != user ==> (u in after.epochs <==> u in s.epochs) && (u in s.epochs ==> after.epochs[u] == s.epochs[u]))
            && user in after.epochs && after.epochs[user] == epoch
            && after.tasks == s.tasks + {(user, epoch)}
            && outcome.epoch == epoch && (outcome.created <==> (user, epoch) !in s.tasks)
  {
  }

  /** Which answer a request gets: a withdrawn user's own task if it stands; a business denial for an inactive
      user, a wrong password, a reserved trade or money left; unavailable without an account or an authority. */
  lemma WithdrawalAnswer(s: State, user: nat, passwordOk: bool, retained: bool)
    ensures var (after, outcome) := Withdraw(s, user, passwordOk, retained);
            var epoch := if user in s.epochs then s.epochs[user] else 0;
            && ((outcome.Withdrawn? && user < |s.users| && !s.users[user].withdrawn) || after == s)
            && (if user >= |s.users| then outcome.Unavailable?
                else if s.users[user].withdrawn then outcome == if (user, epoch) in s.tasks then Withdrawn(epoch, false) else Unavailable
                else if !s.users[user].isActive || !passwordOk || Reserving(s, user) then outcome.Blocked?
                else if NoAccount(s, user) then outcome.Unavailable?
                else if !Penniless(s, user) then outcome.Blocked?
                else if !retained then outcome.Unavailable? else outcome.Withdrawn?)
  {
  }

  /** A party of a reserved trade. */
  ghost predicate Reserving(s: State, user: nat) {
    exists i :: 0 <= i < |s.trades| && (s.trades[i].seller == user || s.trades[i].buyer == Some(user)) && s.trades[i].status.Reserved?
  }

  ghost predicate NoAccount(s: State, user: nat) {
    forall a :: 0 <= a < |s.ledger.accounts| ==> s.ledger.accounts[a].user != user
  }

  predicate Penniless(s: State, user: nat) {
    var found := Ledger.FindAccount(s.ledger.accounts, user);
    found.Some? && s.ledger.accounts[found.value].balance == 0
  }
}

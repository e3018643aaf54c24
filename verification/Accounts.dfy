/** The user facts that the other authorities read (src/apps/accounts/models.py:8-21). A user's
    primary key is its position in the table. */
module Accounts {
  import opened Base

  /** sanctioned: some dormancy action covers the present instant, released or not;
      dormant: one that covers it has not been released. */
  datatype User = User(username: string, isActive: bool, withdrawn: bool, sanctioned: bool, dormant: bool)

  predicate IsLive(users: seq<User>, id: nat) {
    id < |users| && users[id].isActive && !users[id].withdrawn
  }

  /** Active for transfers: this check looks at every running dormancy action. */
  predicate MayTransfer(users: seq<User>, id: nat) {
    IsLive(users, id) && !users[id].sanctioned
  }

  /** Active for trades: this check leaves released dormancy actions out. */
  predicate MayTrade(users: seq<User>, id: nat) {
    IsLive(users, id) && !users[id].dormant
  }

  function FindUser(users: seq<User>, name: string): (r: Option<nat>)
    ensures r.Some? ==> r.value < |users| && users[r.value].username == name
    ensures r.None? ==> forall i :: 0 <= i < |users| ==> users[i].username != name
  {
    if users == [] then None
    else
      var n := |users| - 1;
      match FindUser(users[..n], name)
      case Some(i) => Some(i)
      case None => if users[n].username == name then Some(n) else None
  }

  /** User rows keep their place and their name. */
  ghost predicate NamesKept(before: seq<User>, after: seq<User>) {
    && |before| <= |after|
    && forall i :: 0 <= i < |before| ==> after[i].username == before[i].username
  }

  lemma {:induction false} FindUserStable(before: seq<User>, after: seq<User>, name: string)
    requires NamesKept(before, after) && FindUser(before, name).Some?
    ensures FindUser(after, name) == FindUser(before, name)
  {
    if |after| > |before| {
      FindUserStable(before, after[..|after| - 1], name);
    } else {
      var n := |before| - 1;
      if FindUser(before[..n], name).Some? {
        FindUserStable(before[..n], after[..n], name);
      } else {
        assert after[n].username == name;
        assert forall i :: 0 <= i < n ==> before[..n][i].username == after[i].username;
      }
    }
  }
}

/** What a login attempt answers and changes, told from the throttle rows alone
    (src/apps/accounts/services.py:249-410). */
module LoginOutcomes {
  import opened Base
  import opened LoginThrottle

  const MINUTES: int := 60 * 1_000_000

  /** The row is not older than a day, and its block still runs. */
  predicate Barred(rows: map<Identity, Throttle>, id: Identity, now: int) {
    && id in rows && rows[id].updatedAt >= now - 24 * 60 * MINUTES
    && rows[id].blockedUntil.Some? && rows[id].blockedUntil.value > now
  }

  /** Throttled exactly when the address or the account is barred; then logged in exactly with the right
      password of an active account. */
  lemma AnswerIff(rows: map<Identity, Throttle>, a: Attempt)
    ensures var outcome := Login(rows, a).1;
            var barred := Barred(rows, Ip(a.ip), a.now) || Barred(rows, Account(a.account), a.now);
            && (outcome.Throttled? <==> barred)
            && (outcome.LoggedIn? <==> !barred && a.verdict.Right?)
            && (outcome.Refused? <==> !barred && !a.verdict.Right?)
  {
  }

  /** No row of the last day, or a quarter of an hour has passed since its window began. */
  predicate NewWindow(rows: map<Identity, Throttle>, id: Identity, now: int) {
    id !in rows || rows[id].updatedAt < now - 24 * 60 * MINUTES || now - rows[id].windowStart >= 15 * MINUTES
  }

  /** A wrong password adds one failure to both identities, in a new window or in theirs; the fifth of an
      account bars it for 15 minutes, the twentieth of an address for 30. */
  lemma WrongPasswordCounts(rows: map<Identity, Throttle>, a: Attempt, id: Identity)
    requires a.verdict.Wrong? && Login(rows, a).1.Refused? && (id == Ip(a.ip) || id == Account(a.account))
    ensures var after := Login(rows, a).0;
            var (limit, bar) := if id.Account? then (5, 15 * MINUTES) else (20, 30 * MINUTES);
            var restarts := NewWindow(rows, id, a.now);
            var failures := 1 + (if restarts then 0 else rows[id].failures);
            id in after && after[id] ==
              Throttle(if restarts then a.now else rows[id].windowStart,
                       failures,
                       if failures >= limit then Some(a.now + bar) else if restarts then None else rows[id].blockedUntil,
                       a.savedAt)
  {
  }

  /** A login clears its account's count and block, and counts nothing against the address. */
  lemma LoginClears(rows: map<Identity, Throttle>, a: Attempt)
    requires Login(rows, a).1.LoggedIn?
    ensures var after := Login(rows, a).0;
            && Account(a.account) in after && after[Account(a.account)] == Throttle(a.now, 0, None, a.savedAt)
            && Ip(a.ip) in after && (Ip(a.ip) in rows && rows[Ip(a.ip)].updatedAt >= a.now - 24 * 60 * MINUTES ==> after[Ip(a.ip)] == rows[Ip(a.ip)])
  {
  }

  /** Rows older than a day go; any other row is as it was, unless the attempt is its own failure or login. */
  lemma OthersKept(rows: map<Identity, Throttle>, a: Attempt, id: Identity)
    requires id in rows
    requires Login(rows, a).1.Throttled? || a.verdict.NotActive? || (id != Ip(a.ip) && id != Account(a.account))
    ensures var after := Login(rows, a).0;
            if rows[id].updatedAt >= a.now - 24 * 60 * MINUTES then id in after && after[id] == rows[id]
            else id in after ==> (id == Ip(a.ip) || id == Account(a.account)) && after[id] == Throttle(a.now, 0, None, a.savedAt)
  {
  }
}

/** Login in the form the code has: throttle rows locked, updated field by field and saved. */
module LoginService {
  import opened Base
  import opened LoginThrottle

  class Service {
    var rows: map<Identity, Throttle>

    constructor ()
      ensures rows == map[]
    {
      rows := map[];
    }

    method PruneExpiredThrottles(now: int)
      modifies this
      ensures rows == Prune(old(rows), now)
      ensures forall id :: id in old(rows) && id !in rows ==> old(rows)[id].updatedAt < now - RETENTION
    {
      rows := map id | id in rows && rows[id].updatedAt >= now - RETENTION :: rows[id];
    }

    method LockedThrottle(id: Identity, now: int, savedAt: int) returns (t: Throttle)
      modifies this
      ensures rows == Locked(old(rows), id, now, savedAt) && t == rows[id]
    {
      if id !in rows {
        rows := rows[id := Throttle(now, 0, None, savedAt)];
      }
      t := rows[id];
    }

    method RecordFailure(id: Identity, locked: Throttle, now: int, savedAt: int)
      modifies this
      ensures rows == old(rows)[id := LoginThrottle.RecordFailure(locked, id, now, savedAt)]
    {
      var t := locked;
      if now - t.windowStart >= WINDOW {
        t := t.(windowStart := now, failures := 0, blockedUntil := None);
      }
      t := t.(failures := t.failures + 1);
      if t.failures >= Threshold(id) {
        t := t.(blockedUntil := Some(now + Cooldown(id)));
      }
      rows := rows[id := t.(updatedAt := savedAt)];
    }

    method AuthenticateLogin(a: Attempt) returns (outcome: Outcome)
      modifies this
      ensures (rows, outcome) == Login(old(rows), a)
    {
      PruneExpiredThrottles(a.now);
      var ip := LockedThrottle(Ip(a.ip), a.now, a.savedAt);
      if IsBlocked(ip, a.now) {
        return Throttled;
      }
      var account := LockedThrottle(Account(a.account), a.now, a.savedAt);
      if IsBlocked(account, a.now) {
        return Throttled;
      }
      match a.verdict {
        case Wrong =>
          RecordFailure(Account(a.account), account, a.now, a.savedAt);
          RecordFailure(Ip(a.ip), ip, a.now, a.savedAt);
          outcome := Refused;
        case NotActive =>
          outcome := Refused;
        case Right =>
          rows := rows[Account(a.account) := Throttle(a.now, 0, None, a.savedAt)];
          outcome := LoggedIn;
      }
    }
  }
}

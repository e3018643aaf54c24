/** The login throttle (src/apps/accounts/services.py:249-410): fixed windows with cooldowns and
    pruning, and the bound they give over every sliding interval. Instants are microseconds. */
module LoginThrottle {
  import opened Base

  const MINUTE: int := 60_000_000
  const WINDOW: int := 15 * MINUTE
  const RETENTION: int := 24 * 60 * MINUTE

  datatype Identity = Account(digest: nat) | Ip(digest: nat)

  function Threshold(id: Identity): nat {
    if id.Account? then 5 else 20
  }

  function Cooldown(id: Identity): int {
    if id.Account? then 15 * MINUTE else 30 * MINUTE
  }

  datatype Throttle = Throttle(windowStart: int, failures: nat, blockedUntil: Option<int>, updatedAt: int)

  /** What the password check and the status checks say about an attempt. */
  datatype Verdict = Wrong | NotActive | Right

  datatype Outcome = Throttled | Refused | LoggedIn

  /** now is read once; rows are stamped when they are saved, which is not earlier. */
  datatype Attempt = Attempt(ip: nat, account: nat, verdict: Verdict, now: int, savedAt: int)

  predicate IsBlocked(t: Throttle, now: int) {
    t.blockedUntil.Some? && t.blockedUntil.value > now
  }

  function Prune(rows: map<Identity, Throttle>, now: int): map<Identity, Throttle> {
    map id | id in rows && rows[id].updatedAt >= now - RETENTION :: rows[id]
  }

  /** The row of an identity, created when missing. */
  function Locked(rows: map<Identity, Throttle>, id: Identity, now: int, savedAt: int): (r: map<Identity, Throttle>)
    ensures id in r
  {
    if id in rows then rows else rows[id := Throttle(now, 0, None, savedAt)]
  }

  function RecordFailure(t: Throttle, id: Identity, now: int, savedAt: int): Throttle {
    var open := if now - t.windowStart >= WINDOW then Throttle(now, 0, None, t.updatedAt) else t;
    var failures := open.failures + 1;
    Throttle(open.windowStart, failures,
             if failures >= Threshold(id) then Some(now + Cooldown(id)) else open.blockedUntil,
             savedAt)
  }

  function Login(rows: map<Identity, Throttle>, a: Attempt): (map<Identity, Throttle>, Outcome) {
    var (ip, account) := (Ip(a.ip), Account(a.account));
    var withIp := Locked(Prune(rows, a.now), ip, a.now, a.savedAt);
    if IsBlocked(withIp[ip], a.now) then (withIp, Throttled)
    else
      var both := Locked(withIp, account, a.now, a.savedAt);
      if IsBlocked(both[account], a.now) then (both, Throttled)
      else
        match a.verdict
        case Wrong =>
          (both[account := RecordFailure(both[account], account, a.now, a.savedAt)]
               [ip := RecordFailure(both[ip], ip, a.now, a.savedAt)],
           Refused)
        case NotActive => (both, Refused)
        case Right => (both[account := Throttle(a.now, 0, None, a.savedAt)], LoggedIn)
  }

  // ---------- History ----------

  /** past: the instants of the recorded failures of each identity, an account's only since its last
      successful login. */
  datatype State = State(rows: map<Identity, Throttle>, past: map<Identity, seq<int>>, clock: int)

  function Past(s: State, id: Identity): seq<int> {
    if id in s.past then s.past[id] else []
  }

  function Step(s: State, a: Attempt): State {
    var (rows, outcome) := Login(s.rows, a);
    var (ip, account) := (Ip(a.ip), Account(a.account));
    var past :=
      if outcome.Refused? && a.verdict.Wrong? then
        s.past[account := Past(s, account) + [a.now]][ip := Past(s, ip) + [a.now]]
      else if outcome.LoggedIn? then s.past[account := []]
      else s.past;
    State(rows, past, a.now)
  }

  // ---------- The bound ----------

  function InWindow(a: int): int -> bool {
    (x: int) => a <= x < a + WINDOW
  }

  function Later(a: int): int -> bool {
    (x: int) => x > a
  }

  ghost function FailuresFrom(past: seq<int>, a: int): nat {
    Count(past, InWindow(a))
  }

  /** No 15-minute half-open interval holds twice the threshold. */
  ghost predicate Spread(past: seq<int>, threshold: nat) {
    forall a: int :: FailuresFrom(past, a) <= 2 * threshold - 1
  }

  /** The last n failures, and the ones before them. */
  function Newest(past: seq<int>, n: nat): seq<int>
    requires n <= |past|
  {
    past[|past| - n..]
  }

  function Older(past: seq<int>, n: nat): seq<int>
    requires n <= |past|
  {
    past[..|past| - n]
  }

  /** The row counts the failures since its window started; what came before left room. */
  ghost predicate RowFits(id: Identity, t: Throttle, past: seq<int>, clock: int) {
    && t.failures <= |past| && t.failures <= Threshold(id)
    && t.windowStart <= clock && t.windowStart <= t.updatedAt
    && (forall f :: f in past ==> f <= clock && f <= t.updatedAt)
    && (forall f :: f in Newest(past, t.failures) ==> t.windowStart <= f < t.windowStart + WINDOW)
    && (forall f :: f in Older(past, t.failures) ==> f <= t.windowStart)
    && Count(Older(past, t.failures), Later(t.windowStart - WINDOW)) <= Threshold(id) - 1
    && t.blockedUntil == (if t.failures < Threshold(id) then None else Some(past[|past| - 1] + Cooldown(id)))
    && (forall f :: t.failures == Threshold(id) && f in past ==> f <= past[|past| - 1])
  }

  ghost predicate Fits(id: Identity, row: Option<Throttle>, past: seq<int>, clock: int) {
    && Spread(past, Threshold(id))
    && (match row
        case Some(t) => RowFits(id, t, past, clock)
        case None => forall f :: f in past ==> f < clock - RETENTION)
  }

  function Row(rows: map<Identity, Throttle>, id: Identity): Option<Throttle> {
    if id in rows then Some(rows[id]) else None
  }

  ghost predicate Inv(s: State) {
    forall id :: Fits(id, Row(s.rows, id), Past(s, id), s.clock)
  }

  ghost predicate ClockRuns(s: State, a: Attempt) {
    s.clock <= a.now <= a.savedAt
  }

  lemma SpreadAppend(past: seq<int>, now: int, threshold: nat)
    requires Spread(past, threshold)
    requires Count(past, Later(now - WINDOW)) <= 2 * threshold - 2
    ensures Spread(past + [now], threshold)
  {
    forall a: int
      ensures FailuresFrom(past + [now], a) <= 2 * threshold - 1
    {
      CountAppend(past, now, InWindow(a));
      if InWindow(a)(now) {
        CountMonotone(past, InWindow(a), Later(now - WINDOW));
      } else {
        assert FailuresFrom(past, a) <= 2 * threshold - 1;
      }
    }
  }

  /** Time passing and pruning. */
  lemma PruneFits(id: Identity, row: Option<Throttle>, past: seq<int>, clock: int, now: int)
    requires Fits(id, row, past, clock) && clock <= now
    ensures Fits(id, if row.Some? && row.value.updatedAt >= now - RETENTION then row else None, past, now)
  {
  }

  lemma CreateFits(id: Identity, past: seq<int>, now: int, savedAt: int)
    requires Fits(id, None, past, now) && now <= savedAt
    ensures Fits(id, Some(Throttle(now, 0, None, savedAt)), past, now)
  {
    assert Older(past, 0) == past && Newest(past, 0) == [];
    CountNone(past, Later(now - WINDOW));
  }

  /** Older failures that could share an interval with one recorded now: fewer than a threshold when
      the window restarts, and those of the current window otherwise. */
  lemma RecentFailures(id: Identity, t: Throttle, past: seq<int>, now: int)
    requires RowFits(id, t, past, now) && !IsBlocked(t, now)
    ensures now - t.windowStart >= WINDOW ==> Count(past, Later(now - WINDOW)) <= Threshold(id) - 1
    ensures now - t.windowStart < WINDOW ==> t.failures < Threshold(id)
    ensures now - t.windowStart < WINDOW ==> Count(past, Later(now - WINDOW)) <= Threshold(id) - 1 + t.failures
  {
    var (older, current) := (Older(past, t.failures), Newest(past, t.failures));
    assert past == older + current;
    CountConcat(older, current, Later(now - WINDOW));
    CountAtMostLength(current, Later(now - WINDOW));
    if now - t.windowStart >= WINDOW {
      CountNone(older, Later(now - WINDOW));
      if t.failures == Threshold(id) {
        CountNone(past, Later(now - WINDOW));
      }
    } else {
      CountMonotone(older, Later(now - WINDOW), Later(t.windowStart - WINDOW));
      assert t.failures > 0 ==> past[|past| - 1] == current[|current| - 1] && current[|current| - 1] in current;
    }
  }

  /** A failure that starts a new window. */
  lemma RestartFits(id: Identity, t: Throttle, past: seq<int>, now: int, savedAt: int)
    requires RowFits(id, t, past, now) && now <= savedAt && now - t.windowStart >= WINDOW
    requires Count(past, Later(now - WINDOW)) <= Threshold(id) - 1
    ensures RowFits(id, RecordFailure(t, id, now, savedAt), past + [now], now)
  {
    var (after, r) := (past + [now], RecordFailure(t, id, now, savedAt));
    assert Older(after, r.failures) == past && Newest(after, r.failures) == [now];
  }

  /** A failure within the running window. */
  lemma ContinueFits(id: Identity, t: Throttle, past: seq<int>, now: int, savedAt: int)
    requires RowFits(id, t, past, now) && now <= savedAt && now - t.windowStart < WINDOW && t.failures < Threshold(id)
    ensures RowFits(id, RecordFailure(t, id, now, savedAt), past + [now], now)
  {
    var (after, r) := (past + [now], RecordFailure(t, id, now, savedAt));
    assert Older(after, r.failures) == Older(past, t.failures);
    assert Newest(after, r.failures) == Newest(past, t.failures) + [now];
  }

  lemma FailureFits(id: Identity, t: Throttle, past: seq<int>, now: int, savedAt: int)
    requires Fits(id, Some(t), past, now) && !IsBlocked(t, now) && now <= savedAt
    ensures Fits(id, Some(RecordFailure(t, id, now, savedAt)), past + [now], now)
  {
    RecentFailures(id, t, past, now);
    SpreadAppend(past, now, Threshold(id));
    if now - t.windowStart >= WINDOW {
      RestartFits(id, t, past, now, savedAt);
    } else {
      ContinueFits(id, t, past, now, savedAt);
    }
  }

  lemma SuccessFits(id: Identity, now: int, savedAt: int)
    requires now <= savedAt
    ensures Fits(id, Some(Throttle(now, 0, None, savedAt)), [], now)
  {
    assert forall a: int :: FailuresFrom([], a) == 0;
  }

  lemma LockedFits(rows: map<Identity, Throttle>, key: Identity, now: int, savedAt: int, id: Identity, past: seq<int>)
    requires Fits(id, Row(rows, id), past, now) && now <= savedAt
    ensures Fits(id, Row(Locked(rows, key, now, savedAt), id), past, now)
  {
    if id == key && key !in rows {
      CreateFits(id, past, now, savedAt);
    }
  }

  /** What an attempt does to one identity, once its row is locked. */
  lemma AttemptShape(s: State, a: Attempt, id: Identity)
    ensures var withIp := Locked(Prune(s.rows, a.now), Ip(a.ip), a.now, a.savedAt);
            var both := Locked(withIp, Account(a.account), a.now, a.savedAt);
            var (row, past) := (Row(Step(s, a).rows, id), Past(Step(s, a), id));
            || (row == Row(withIp, id) && past == Past(s, id))
            || (row == Row(both, id) && past == Past(s, id))
            || (&& id in both && !IsBlocked(both[id], a.now)
                && row == Some(RecordFailure(both[id], id, a.now, a.savedAt)) && past == Past(s, id) + [a.now])
            || (row == Some(Throttle(a.now, 0, None, a.savedAt)) && past == [])
  {
  }

  /** One attempt, seen from one identity: rows of other identities play no part. */
  lemma AttemptFits(s: State, a: Attempt, id: Identity)
    requires Fits(id, Row(s.rows, id), Past(s, id), s.clock) && ClockRuns(s, a)
    ensures Fits(id, Row(Step(s, a).rows, id), Past(Step(s, a), id), a.now)
  {
    var pruned := Prune(s.rows, a.now);
    var withIp := Locked(pruned, Ip(a.ip), a.now, a.savedAt);
    var both := Locked(withIp, Account(a.account), a.now, a.savedAt);
    PruneFits(id, Row(s.rows, id), Past(s, id), s.clock, a.now);
    LockedFits(pruned, Ip(a.ip), a.now, a.savedAt, id, Past(s, id));
    LockedFits(withIp, Account(a.account), a.now, a.savedAt, id, Past(s, id));
    SuccessFits(id, a.now, a.savedAt);
    AttemptShape(s, a, id);
    if id in both && !IsBlocked(both[id], a.now) {
      FailureFits(id, both[id], Past(s, id), a.now, a.savedAt);
    }
  }

  /** Every attempt keeps the bookkeeping of every identity. */
  lemma StepKeepsInv(s: State, a: Attempt)
    requires Inv(s) && ClockRuns(s, a)
    ensures Inv(Step(s, a))
  {
    forall id
      ensures Fits(id, Row(Step(s, a).rows, id), Past(Step(s, a), id), Step(s, a).clock)
    {
      assert Fits(id, Row(s.rows, id), Past(s, id), s.clock);
      AttemptFits(s, a, id);
    }
  }

  function Initial(clock: int): State {
    State(map[], map[], clock)
  }

  ghost predicate AllRun(s: State, attempts: seq<Attempt>)
    decreases |attempts|
  {
    attempts == [] || (ClockRuns(s, attempts[0]) && AllRun(Step(s, attempts[0]), attempts[1..]))
  }

  ghost function Run(s: State, attempts: seq<Attempt>): State
    decreases |attempts|
  {
    if attempts == [] then s else Run(Step(s, attempts[0]), attempts[1..])
  }

  lemma {:induction false} RunKeepsInv(s: State, attempts: seq<Attempt>)
    requires Inv(s) && AllRun(s, attempts)
    ensures Inv(Run(s, attempts))
    decreases |attempts|
  {
    if attempts != [] {
      StepKeepsInv(s, attempts[0]);
      RunKeepsInv(Step(s, attempts[0]), attempts[1..]);
    }
  }

  /** Over every run with a clock that does not go back: stored counts stay at or below their threshold;
      any 15-minute half-open interval holds at most 39 recorded failures of an address, and at most 9
      of an account since its last successful login. */
  lemma FailureRateBound(clock: int, attempts: seq<Attempt>, digest: nat, a: int)
    requires AllRun(Initial(clock), attempts)
    ensures var s := Run(Initial(clock), attempts);
            && (forall id :: id in s.rows ==> s.rows[id].failures <= Threshold(id))
            && FailuresFrom(Past(s, Ip(digest)), a) <= 39
            && FailuresFrom(Past(s, Account(digest)), a) <= 9
  {
    var start := Initial(clock);
    forall id
      ensures Fits(id, Row(start.rows, id), Past(start, id), start.clock)
    {
      assert forall b: int :: FailuresFrom([], b) == 0;
    }
    RunKeepsInv(start, attempts);
    var s := Run(start, attempts);
    assert Fits(Ip(digest), Row(s.rows, Ip(digest)), Past(s, Ip(digest)), s.clock);
    assert Fits(Account(digest), Row(s.rows, Account(digest)), Past(s, Account(digest)), s.clock);
    forall id | id in s.rows
      ensures s.rows[id].failures <= Threshold(id)
    {
      assert Fits(id, Row(s.rows, id), Past(s, id), s.clock);
    }
  }

  /** Pruning never lifts a block that is still running. */
  lemma PruneKeepsBlocks(s: State, id: Identity, now: int)
    requires Inv(s) && id in s.rows && IsBlocked(s.rows[id], now)
    ensures id in Prune(s.rows, now) && IsBlocked(Prune(s.rows, now)[id], now)
  {
    assert Fits(id, Row(s.rows, id), Past(s, id), s.clock);
    var t := s.rows[id];
    assert t.failures > 0;
    assert Past(s, id)[|Past(s, id)| - 1] in Past(s, id);
  }
}

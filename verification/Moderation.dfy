/** Report-threshold moderation (src/apps/moderation/services.py:126-370, policies.py): reports are
    consumed once by seven-day actions. Instants are microseconds; each command reads its clock once. */
module Moderation {
  import opened Base

  const DAY: int := 24 * 60 * 60 * 1_000_000
  const MIN_REPORTER_AGE: int := 7 * DAY
  const REPORT_WINDOW: int := 7 * DAY
  const ACTION_DURATION: int := 7 * DAY
  const REPORTER_THRESHOLD: nat := 5
  const CONTEXT_THRESHOLD: nat := 2

  datatype Context = Profile | OfProduct | ProductInteraction | GlobalChat | DirectChat | OfReview
  datatype Target = UserTarget(user: nat) | ProductTarget(product: nat)

  datatype User = User(active: bool, joinedAt: int, epoch: nat)
  datatype Product = Product(owner: nat, archived: bool)
  datatype Report = Report(reporter: nat, target: Target, context: Context, createdAt: int, consumedBy: Option<nat>)

  /** automatic: created by a threshold, not by a manager. */
  datatype Action = Action(target: Target, startsAt: int, expiresAt: int, releasedAt: Option<int>, automatic: bool)

  /** Keys are positions; audits lists the actions that have an audit event. */
  datatype Tables = Tables(users: seq<User>, products: seq<Product>, reports: seq<Report>, actions: seq<Action>, audits: seq<nat>)

  // ---------- Policies ----------

  predicate ValidContext(target: Target, c: Context) {
    match target
    case ProductTarget(_) => c.OfProduct?
    case UserTarget(_) => c.Profile? || c.ProductInteraction? || c.GlobalChat? || c.DirectChat?
  }

  function AllReporters(byContext: map<Context, set<nat>>): set<nat> {
    set c, u | c in byContext && u in byContext[c] :: u
  }

  predicate Overlapping(byContext: map<Context, set<nat>>) {
    exists c, d, u :: c in byContext && d in byContext && c != d && u in byContext[c] && u in byContext[d]
  }

  datatype Decision = PolicyError | Qualifies(yes: bool)

  function Decide(target: Target, byContext: map<Context, set<nat>>): Decision {
    if (exists c :: c in byContext && !ValidContext(target, c)) || Overlapping(byContext) then PolicyError
    else
      match target
      case ProductTarget(_) => Qualifies(OfProduct in byContext && |byContext[OfProduct]| >= REPORTER_THRESHOLD)
      case UserTarget(_) =>
        Qualifies(|AllReporters(byContext)| >= REPORTER_THRESHOLD
                  && |set c | c in byContext && byContext[c] != {}| >= CONTEXT_THRESHOLD)
  }

  // ---------- Queries ----------

  predicate IsActive(a: Action, now: int) {
    a.startsAt <= now < a.expiresAt && a.releasedAt.None?
  }

  predicate HasActiveAction(t: Tables, target: Target, now: int) {
    exists i :: 0 <= i < |t.actions| && t.actions[i].target == target && IsActive(t.actions[i], now)
  }

  predicate MayContribute(t: Tables, user: nat, now: int) {
    && user < |t.users|
    && t.users[user].active
    && now - t.users[user].joinedAt >= MIN_REPORTER_AGE
    && !HasActiveAction(t, UserTarget(user), now)
  }

  /** The reports that count for a target now. */
  predicate Counts(t: Tables, target: Target, now: int, r: Report) {
    && r.target == target
    && r.consumedBy.None?
    && now - REPORT_WINDOW <= r.createdAt <= now
    && MayContribute(t, r.reporter, now)
  }

  /** Reporters by context over the first n reports. */
  function ByContext(t: Tables, target: Target, now: int, n: nat): map<Context, set<nat>>
    requires n <= |t.reports|
  {
    if n == 0 then map[]
    else
      var before := ByContext(t, target, now, n - 1);
      var r := t.reports[n - 1];
      if Counts(t, target, now, r) then
        before[r.context := (if r.context in before then before[r.context] else {}) + {r.reporter}]
      else
        before
  }

  /** Mark the first n reports that count as consumed. */
  function Consume(t: Tables, target: Target, now: int, action: nat): seq<Report> {
    seq(|t.reports|, i requires 0 <= i < |t.reports| =>
      if Counts(t, target, now, t.reports[i]) then t.reports[i].(consumedBy := Some(action)) else t.reports[i])
  }

  // ---------- Commands ----------

  datatype Evaluation = NoAction | Acted(action: nat) | EvaluationError

  function EvaluateLocked(t: Tables, target: Target, now: int): (Tables, Evaluation) {
    if HasActiveAction(t, target, now) then (t, NoAction)
    else
      match Decide(target, ByContext(t, target, now, |t.reports|))
      case PolicyError => (t, EvaluationError)
      case Qualifies(yes) =>
        if !yes then (t, NoAction)
        else
          var action := |t.actions|;
          var users :=
            if target.UserTarget? && target.user < |t.users| then
              t.users[target.user := t.users[target.user].(epoch := t.users[target.user].epoch + 1)]
            else t.users;
          (t.(users := users,
              reports := Consume(t, target, now, action),
              actions := t.actions + [Action(target, now, now + ACTION_DURATION, None, true)],
              audits := t.audits + [action]),
           Acted(action))
  }

  datatype Submission = Rejected | Duplicate | Failed | Stored(report: nat, evaluation: Evaluation)

  predicate TargetOpen(t: Tables, reporter: nat, target: Target, now: int) {
    match target
    case UserTarget(u) =>
      u < |t.users| && u != reporter && t.users[u].active && !HasActiveAction(t, target, now)
    case ProductTarget(p) =>
      p < |t.products| && !t.products[p].archived && t.products[p].owner != reporter && !HasActiveAction(t, target, now)
  }

  predicate AlreadyReported(t: Tables, reporter: nat, target: Target) {
    exists i :: 0 <= i < |t.reports| && t.reports[i].reporter == reporter && t.reports[i].target == target
  }

  function SubmitReport(t: Tables, reporter: nat, target: Target, context: Context, now: int): (Tables, Submission) {
    if !ValidContext(target, context) || !MayContribute(t, reporter, now) || !TargetOpen(t, reporter, target, now) then (t, Rejected)
    else if AlreadyReported(t, reporter, target) then (t, Duplicate)
    else
      var stored := t.(reports := t.reports + [Report(reporter, target, context, now, None)]);
      var (after, evaluation) := EvaluateLocked(stored, target, now);
      if evaluation.EvaluationError? then (t, Failed) else (after, Stored(|t.reports|, evaluation))
  }

  function EvaluateThreshold(t: Tables, target: Target, now: int): (Tables, Evaluation) {
    match target
    case UserTarget(u) =>
      if u >= |t.users| then (t, EvaluationError)
      else if !t.users[u].active || HasActiveAction(t, target, now) then (t, NoAction)
      else EvaluateLocked(t, target, now)
    case ProductTarget(p) =>
      if p >= |t.products| || t.products[p].archived then (t, EvaluationError)
      else if HasActiveAction(t, target, now) then (t, NoAction)
      else EvaluateLocked(t, target, now)
  }
}

/** Every run of submissions, re-evaluations, releases and manual sanctions: reports are consumed once,
    an action costs five distinct reporters, and automatic actions never overlap
    (src/apps/moderation/services.py:172-370, policies.py:66-96). */
module ModerationRuns {
  import opened Base
  import opened Moderation

  // ---------- Grouping reports by context ----------

  ghost predicate Counted(t: Tables, target: Target, now: int, i: int) {
    0 <= i < |t.reports| && Counts(t, target, now, t.reports[i])
  }

  ghost predicate Grouped(t: Tables, target: Target, now: int, n: nat, c: Context, u: nat) {
    exists i :: 0 <= i < n && Counted(t, target, now, i) && t.reports[i].context == c && t.reports[i].reporter == u
  }

  lemma {:induction false} ByContextGroups(t: Tables, target: Target, now: int, n: nat)
    requires n <= |t.reports|
    ensures forall c, u :: c in ByContext(t, target, now, n) && u in ByContext(t, target, now, n)[c] ==> Grouped(t, target, now, n, c, u)
    ensures forall i :: 0 <= i < n && Counted(t, target, now, i) ==>
                          && t.reports[i].context in ByContext(t, target, now, n)
                          && t.reports[i].reporter in ByContext(t, target, now, n)[t.reports[i].context]
    ensures forall c :: c in ByContext(t, target, now, n) ==> ByContext(t, target, now, n)[c] != {}
  {
    if n > 0 {
      ByContextGroups(t, target, now, n - 1);
      var before, after := ByContext(t, target, now, n - 1), ByContext(t, target, now, n);
      var r := t.reports[n - 1];
      assert Counted(t, target, now, n - 1) <==> Counts(t, target, now, r);
      forall c, u | c in after && u in after[c] ensures Grouped(t, target, now, n, c, u) {
        if c in before && u in before[c] {
          var i :| 0 <= i < n - 1 && Counted(t, target, now, i) && t.reports[i].context == c && t.reports[i].reporter == u;
        }
      }
    }
  }

  // ---------- The invariant ----------

  predicate SameClaim(r: Report, q: Report) {
    r.reporter == q.reporter && r.target == q.target
  }

  /** One report for each reporter and target, in a context the target allows. */
  ghost predicate Filed(t: Tables) {
    && (forall i, j :: 0 <= i < j < |t.reports| ==> !SameClaim(t.reports[i], t.reports[j]))
    && (forall i :: 0 <= i < |t.reports| ==> ValidContext(t.reports[i].target, t.reports[i].context))
  }

  predicate ConsumedFor(t: Tables, r: Report) {
    r.consumedBy.Some? ==>
      && r.consumedBy.value < |t.actions|
      && t.actions[r.consumedBy.value].automatic
      && t.actions[r.consumedBy.value].target == r.target
      && t.actions[r.consumedBy.value].startsAt - REPORT_WINDOW <= r.createdAt <= t.actions[r.consumedBy.value].startsAt
  }

  /** The instant an action stops applying. */
  function EndOf(a: Action): int {
    if a.releasedAt.Some? && a.releasedAt.value < a.expiresAt then a.releasedAt.value else a.expiresAt
  }

  predicate Past(a: Action, clock: int) {
    && a.startsAt <= clock
    && a.expiresAt == a.startsAt + ACTION_DURATION
    && (a.releasedAt.Some? ==> a.releasedAt.value <= clock)
  }

  predicate Before(a: Action, b: Action) {
    b.automatic && a.target == b.target ==> EndOf(a) <= b.startsAt
  }

  ghost predicate Timed(t: Tables, clock: int) {
    && (forall a :: 0 <= a < |t.actions| ==> Past(t.actions[a], clock))
    && (forall a, b :: 0 <= a < b < |t.actions| ==> Before(t.actions[a], t.actions[b]))
  }

  /** Exactly one audit event for every automatic action. */
  ghost predicate Audited(t: Tables) {
    && (forall i, j :: 0 <= i < j < |t.audits| ==> t.audits[i] != t.audits[j])
    && (forall a: nat :: a in t.audits <==> a < |t.actions| && t.actions[a].automatic)
  }

  function ConsumedReporters(reports: seq<Report>, a: nat): set<nat> {
    set i | 0 <= i < |reports| && reports[i].consumedBy == Some(a) :: reports[i].reporter
  }

  ghost predicate TwoContexts(reports: seq<Report>, a: nat) {
    exists i, j :: && 0 <= i < |reports| && 0 <= j < |reports|
                   && reports[i].consumedBy == Some(a) && reports[j].consumedBy == Some(a)
                   && reports[i].context != reports[j].context
  }

  ghost predicate PaidFor(t: Tables, a: nat)
    requires a < |t.actions|
  {
    t.actions[a].automatic ==>
      && |ConsumedReporters(t.reports, a)| >= REPORTER_THRESHOLD
      && (t.actions[a].target.UserTarget? ==> TwoContexts(t.reports, a))
  }

  ghost predicate Inv(t: Tables, clock: int) {
    && Filed(t)
    && (forall i :: 0 <= i < |t.reports| ==> ConsumedFor(t, t.reports[i]))
    && Timed(t, clock)
    && Audited(t)
    && (forall a :: 0 <= a < |t.actions| ==> PaidFor(t, a))
  }

  // ---------- The policy decision ----------

  function EligibleReporters(t: Tables, target: Target, now: int): set<nat> {
    set i | 0 <= i < |t.reports| && Counts(t, target, now, t.reports[i]) :: t.reports[i].reporter
  }

  ghost predicate TwoEligibleContexts(t: Tables, target: Target, now: int) {
    exists i, j :: Counted(t, target, now, i) && Counted(t, target, now, j) && t.reports[i].context != t.reports[j].context
  }

  /** The threshold in words: five distinct eligible reporters, for a user in two contexts at least. */
  ghost predicate Reached(t: Tables, target: Target, now: int) {
    && |EligibleReporters(t, target, now)| >= REPORTER_THRESHOLD
    && (target.UserTarget? ==> TwoEligibleContexts(t, target, now))
  }

  /** Two groups of one reporter are one group: its reports are one report. */
  lemma OneGroup(t: Tables, target: Target, now: int, n: nat, c: Context, d: Context, u: nat)
    requires Filed(t) && n <= |t.reports| && Grouped(t, target, now, n, c, u) && Grouped(t, target, now, n, d, u)
    ensures c == d
  {
    var i :| 0 <= i < n && Counted(t, target, now, i) && t.reports[i].context == c && t.reports[i].reporter == u;
    var j :| 0 <= j < n && Counted(t, target, now, j) && t.reports[j].context == d && t.reports[j].reporter == u;
    assert i < j ==> !SameClaim(t.reports[i], t.reports[j]);
    assert j < i ==> !SameClaim(t.reports[j], t.reports[i]);
  }

  lemma NoOverlap(t: Tables, target: Target, now: int)
    requires Filed(t)
    ensures var g := ByContext(t, target, now, |t.reports|); (forall c :: c in g ==> ValidContext(target, c)) && !Overlapping(g)
  {
    var n := |t.reports|;
    var g := ByContext(t, target, now, n);
    ByContextGroups(t, target, now, n);
    forall c | c in g ensures ValidContext(target, c) {
      var u :| u in g[c];
      assert Grouped(t, target, now, n, c, u);
    }
    forall c, d, u | c in g && d in g && u in g[c] && u in g[d] ensures c == d {
      OneGroup(t, target, now, n, c, d, u);
    }
  }

  lemma GroupsHoldEveryone(t: Tables, target: Target, now: int)
    ensures AllReporters(ByContext(t, target, now, |t.reports|)) == EligibleReporters(t, target, now)
  {
    var n := |t.reports|;
    var g := ByContext(t, target, now, n);
    ByContextGroups(t, target, now, n);
    forall u ensures u in AllReporters(g) <==> u in EligibleReporters(t, target, now) {
      if u in AllReporters(g) {
        var c :| c in g && u in g[c];
        assert Grouped(t, target, now, n, c, u);
      }
      if u in EligibleReporters(t, target, now) {
        var i :| 0 <= i < n && Counts(t, target, now, t.reports[i]) && t.reports[i].reporter == u;
        assert Counted(t, target, now, i);
      }
    }
  }

  lemma AtLeastTwo<T>(s: set<T>)
    ensures |s| >= 2 <==> exists x, y :: x in s && y in s && x != y
  {
    if x, y :| x in s && y in s && x != y {
      assert {x, y} <= s;
      SubsetSize({x, y}, s);
    }
    if |s| >= 2 {
      var x :| x in s;
      assert |s - {x}| >= 1;
      var y :| y in s - {x};
    }
  }

  lemma {:induction false} SubsetSize<T>(a: set<T>, b: set<T>)
    requires a <= b
    ensures |a| <= |b|
  {
    if a != {} {
      var x :| x in a;
      SubsetSize(a - {x}, b - {x});
    }
  }

  ghost predicate InUse(t: Tables, target: Target, now: int, c: Context) {
    exists i :: Counted(t, target, now, i) && t.reports[i].context == c
  }

  /** The groups that are not empty are those of the contexts of counted reports. */
  lemma ContextInUse(t: Tables, target: Target, now: int, c: Context)
    ensures var g := ByContext(t, target, now, |t.reports|);
            c in g && g[c] != {} <==> InUse(t, target, now, c)
  {
    var n := |t.reports|;
    var g := ByContext(t, target, now, n);
    ByContextGroups(t, target, now, n);
    if c in g && g[c] != {} {
      var u :| u in g[c];
      assert Grouped(t, target, now, n, c, u);
    }
  }

  lemma TwoInUse(t: Tables, target: Target, now: int)
    ensures TwoEligibleContexts(t, target, now) <==> exists c, d :: InUse(t, target, now, c) && InUse(t, target, now, d) && c != d
  {
    if i, j :| Counted(t, target, now, i) && Counted(t, target, now, j) && t.reports[i].context != t.reports[j].context {
      assert InUse(t, target, now, t.reports[i].context) && InUse(t, target, now, t.reports[j].context);
    }
  }

  lemma ContextsCounted(t: Tables, target: Target, now: int)
    ensures var g := ByContext(t, target, now, |t.reports|);
            |set c | c in g && g[c] != {}| >= CONTEXT_THRESHOLD <==> TwoEligibleContexts(t, target, now)
  {
    var g := ByContext(t, target, now, |t.reports|);
    var s := set c | c in g && g[c] != {};
    forall c ensures c in s <==> InUse(t, target, now, c) {
      ContextInUse(t, target, now, c);
    }
    TwoInUse(t, target, now);
    AtLeastTwo(s);
  }

  lemma ProductsUseOneContext(t: Tables, target: Target, now: int)
    requires Filed(t) && target.ProductTarget?
    ensures var g := ByContext(t, target, now, |t.reports|);
            AllReporters(g) == if Context.OfProduct in g then g[Context.OfProduct] else {}
  {
    NoOverlap(t, target, now);
  }

  /** The duplicate-contributor error is unreachable, and the code's tests are exactly the threshold. */
  lemma DecisionIsThreshold(t: Tables, target: Target, now: int)
    requires Filed(t)
    ensures Decide(target, ByContext(t, target, now, |t.reports|)) == Qualifies(Reached(t, target, now))
  {
    NoOverlap(t, target, now);
    GroupsHoldEveryone(t, target, now);
    ContextsCounted(t, target, now);
    if target.ProductTarget? {
      ProductsUseOneContext(t, target, now);
    }
  }

  /** A locked evaluation acts exactly when no action runs and the threshold is reached. */
  lemma ActsIffReached(t: Tables, target: Target, now: int)
    requires Filed(t)
    ensures EvaluateLocked(t, target, now).1 ==
            if !HasActiveAction(t, target, now) && Reached(t, target, now) then Acted(|t.actions|) else NoAction
  {
    DecisionIsThreshold(t, target, now);
  }

  // ---------- Effects of one evaluation ----------

  function AfterAction(t: Tables, target: Target, now: int): Tables {
    EvaluateLocked(t, target, now).0
  }

  ghost predicate Acts(t: Tables, target: Target, now: int) {
    EvaluateLocked(t, target, now).1.Acted?
  }

  /** Exactly the reports that counted are consumed, by the one new seven-day action, with one audit
      event; a user target's epoch moves on and nothing else changes. */
  lemma ActionEffects(t: Tables, target: Target, now: int)
    requires Acts(t, target, now)
    ensures var after := AfterAction(t, target, now);
            && |after.reports| == |t.reports|
            && (forall i :: 0 <= i < |t.reports| ==>
                  after.reports[i] == if Counts(t, target, now, t.reports[i]) then t.reports[i].(consumedBy := Some(|t.actions|))
                                      else t.reports[i])
            && after.actions == t.actions + [Action(target, now, now + 7 * DAY, None, true)]
            && after.audits == t.audits + [|t.actions|]
            && after.products == t.products && |after.users| == |t.users|
            && (forall u :: 0 <= u < |t.users| ==>
                  after.users[u] == if target == UserTarget(u) then t.users[u].(epoch := t.users[u].epoch + 1) else t.users[u])
  {
  }

  lemma ActionKeepsFiled(t: Tables, target: Target, now: int)
    requires Filed(t) && Acts(t, target, now)
    ensures Filed(AfterAction(t, target, now))
  {
    ActionEffects(t, target, now);
    var after := AfterAction(t, target, now);
    forall i, j | 0 <= i < j < |after.reports| ensures !SameClaim(after.reports[i], after.reports[j]) {
      assert !SameClaim(t.reports[i], t.reports[j]);
    }
  }

  lemma ActionKeepsTimed(t: Tables, target: Target, clock: int, now: int)
    requires Timed(t, clock) && clock <= now && Acts(t, target, now)
    ensures Timed(AfterAction(t, target, now), now)
  {
    ActionEffects(t, target, now);
    var (after, n) := (AfterAction(t, target, now), |t.actions|);
    assert !HasActiveAction(t, target, now);
    forall a, b | 0 <= a < b < |after.actions| ensures Before(after.actions[a], after.actions[b]) {
      assert after.actions[a] == t.actions[a] && Past(t.actions[a], clock);
      if b == n {
        assert t.actions[a].target == target ==> !IsActive(t.actions[a], now);
      } else {
        assert Before(t.actions[a], t.actions[b]);
      }
    }
  }

  lemma ActionKeepsAudited(t: Tables, target: Target, now: int)
    requires Audited(t) && Acts(t, target, now)
    ensures Audited(AfterAction(t, target, now))
  {
    ActionEffects(t, target, now);
    var (after, n) := (AfterAction(t, target, now), |t.actions|);
    assert n !in t.audits;
    forall a: nat ensures a in after.audits <==> a < |after.actions| && after.actions[a].automatic {
      assert a in after.audits <==> a in t.audits || a == n;
    }
  }

  lemma NewActionIsPaidFor(t: Tables, target: Target, now: int)
    requires Filed(t) && Acts(t, target, now)
    requires forall i :: 0 <= i < |t.reports| ==> ConsumedFor(t, t.reports[i])
    ensures PaidFor(AfterAction(t, target, now), |t.actions|)
    ensures ConsumedReporters(AfterAction(t, target, now).reports, |t.actions|) == EligibleReporters(t, target, now)
  {
    ActionEffects(t, target, now);
    ActsIffReached(t, target, now);
    var (after, n) := (AfterAction(t, target, now), |t.actions|);
    forall i | 0 <= i < |t.reports|
      ensures after.reports[i].consumedBy == Some(n) <==> Counts(t, target, now, t.reports[i])
    {
      assert ConsumedFor(t, t.reports[i]);
    }
    assert ConsumedReporters(after.reports, n) == EligibleReporters(t, target, now);
    if target.UserTarget? {
      var i, j :| Counted(t, target, now, i) && Counted(t, target, now, j) && t.reports[i].context != t.reports[j].context;
      assert after.reports[i].context != after.reports[j].context;
    }
  }

  /** Changing no report consumed by a leaves a paid for. */
  lemma StillPaidFor(t: Tables, after: Tables, a: nat)
    requires a < |t.actions| <= |after.actions| && PaidFor(t, a)
    requires after.actions[a].automatic == t.actions[a].automatic && after.actions[a].target == t.actions[a].target
    requires |t.reports| <= |after.reports|
    requires forall i :: 0 <= i < |t.reports| && t.reports[i].consumedBy == Some(a) ==> after.reports[i] == t.reports[i]
    ensures PaidFor(after, a)
  {
    if t.actions[a].automatic {
      SubsetSize(ConsumedReporters(t.reports, a), ConsumedReporters(after.reports, a));
      if t.actions[a].target.UserTarget? {
        var i, j :| && 0 <= i < |t.reports| && 0 <= j < |t.reports|
                    && t.reports[i].consumedBy == Some(a) && t.reports[j].consumedBy == Some(a)
                    && t.reports[i].context != t.reports[j].context;
        assert after.reports[i].context != after.reports[j].context;
      }
    }
  }

  lemma ActionKeepsInv(t: Tables, target: Target, clock: int, now: int)
    requires Inv(t, clock) && clock <= now && Acts(t, target, now)
    ensures Inv(AfterAction(t, target, now), now)
  {
    ActionEffects(t, target, now);
    ActionKeepsFiled(t, target, now);
    ActionKeepsTimed(t, target, clock, now);
    ActionKeepsAudited(t, target, now);
    NewActionIsPaidFor(t, target, now);
    var after := AfterAction(t, target, now);
    forall i | 0 <= i < |after.reports| ensures ConsumedFor(after, after.reports[i]) {
      assert ConsumedFor(t, t.reports[i]);
    }
    forall a | 0 <= a < |after.actions| ensures PaidFor(after, a) {
      if a < |t.actions| {
        StillPaidFor(t, after, a);
      }
    }
  }

  lemma EvaluationKeepsInv(t: Tables, target: Target, clock: int, now: int)
    requires Inv(t, clock) && clock <= now
    ensures Inv(EvaluateLocked(t, target, now).0, now)
  {
    ActsIffReached(t, target, now);
    if Acts(t, target, now) {
      ActionKeepsInv(t, target, clock, now);
    } else {
      TimePasses(t, clock, now);
    }
  }

  lemma TimePasses(t: Tables, clock: int, now: int)
    requires Inv(t, clock) && clock <= now
    ensures Inv(t, now)
  {
  }

  // ---------- Runs ----------

  /** Manual is any sanction of a manager, whose instant is read before the target's lock; the rest of
      the repository registers and switches users, lists and archives products. */
  datatype Command =
    | Submit(reporter: nat, target: Target, context: Context)
    | Evaluate(target: Target)
    | Release(action: nat)
    | Manual(target: Target, start: int)
    | SetUser(user: nat, row: User)
    | AddUser(row: User)
    | SetProduct(product: nat, item: Product)
    | AddProduct(item: Product)

  datatype Event = Event(now: int, command: Command)

  datatype State = State(tables: Tables, clock: int)

  predicate Possible(s: State, e: Event) {
    s.clock <= e.now && (e.command.Manual? ==> e.command.start <= e.now)
  }

  function Apply(t: Tables, now: int, c: Command): Tables {
    match c
    case Submit(reporter, target, context) => SubmitReport(t, reporter, target, context, now).0
    case Evaluate(target) => EvaluateThreshold(t, target, now).0
    case Release(a) =>
      if a < |t.actions| && t.actions[a].releasedAt.None? && now < t.actions[a].expiresAt then
        t.(actions := t.actions[a := t.actions[a].(releasedAt := Some(now))])
      else t
    case Manual(target, start) =>
      if HasActiveAction(t, target, start) then t
      else t.(actions := t.actions + [Action(target, start, start + ACTION_DURATION, None, false)])
    case SetUser(u, row) => if u < |t.users| then t.(users := t.users[u := row]) else t
    case AddUser(row) => t.(users := t.users + [row])
    case SetProduct(p, row) => if p < |t.products| then t.(products := t.products[p := row]) else t
    case AddProduct(row) => t.(products := t.products + [row])
  }

  function Step(s: State, e: Event): State {
    State(Apply(s.tables, e.now, e.command), e.now)
  }

  ghost predicate PossibleRun(s: State, run: seq<Event>)
    decreases |run|
  {
    run == [] || (Possible(s, run[0]) && PossibleRun(Step(s, run[0]), run[1..]))
  }

  function Run(s: State, run: seq<Event>): State
    decreases |run|
  {
    if run == [] then s else Run(Step(s, run[0]), run[1..])
  }

  const EMPTY := Tables([], [], [], [], [])

  lemma ReportKeepsInv(t: Tables, r: Report, clock: int, now: int)
    requires Inv(t, clock) && clock <= now && r.consumedBy.None? && ValidContext(r.target, r.context)
    requires !AlreadyReported(t, r.reporter, r.target)
    ensures Inv(t.(reports := t.reports + [r]), now)
  {
    var after := t.(reports := t.reports + [r]);
    forall a | 0 <= a < |t.actions| ensures PaidFor(after, a) {
      StillPaidFor(t, after, a);
    }
    forall i | 0 <= i < |after.reports| ensures ConsumedFor(after, after.reports[i]) {
      assert i < |t.reports| ==> ConsumedFor(t, t.reports[i]);
    }
    forall i, j | 0 <= i < j < |after.reports| ensures !SameClaim(after.reports[i], after.reports[j]) {
      assert j < |t.reports| ==> !SameClaim(t.reports[i], t.reports[j]);
    }
  }

  lemma ReleaseKeepsInv(t: Tables, a: nat, clock: int, now: int)
    requires Inv(t, clock) && clock <= now
    ensures Inv(Apply(t, now, Release(a)), now)
  {
    var after := Apply(t, now, Release(a));
    forall b | 0 <= b < |t.actions| ensures PaidFor(after, b) {
      StillPaidFor(t, after, b);
    }
    forall i | 0 <= i < |after.reports| ensures ConsumedFor(after, after.reports[i]) {
      assert ConsumedFor(t, t.reports[i]);
    }
    forall b, c | 0 <= b < c < |after.actions| ensures Before(after.actions[b], after.actions[c]) {
      assert Before(t.actions[b], t.actions[c]);
    }
  }

  lemma ManualKeepsInv(t: Tables, target: Target, start: int, clock: int, now: int)
    requires Inv(t, clock) && clock <= now && start <= now
    ensures Inv(Apply(t, now, Manual(target, start)), now)
  {
    var after := Apply(t, now, Manual(target, start));
    forall b | 0 <= b < |after.actions| ensures PaidFor(after, b) {
      if b < |t.actions| {
        StillPaidFor(t, after, b);
      }
    }
    forall i | 0 <= i < |after.reports| ensures ConsumedFor(after, after.reports[i]) {
      assert ConsumedFor(t, t.reports[i]);
    }
    forall b, c | 0 <= b < c < |after.actions| ensures Before(after.actions[b], after.actions[c]) {
      assert c < |t.actions| ==> Before(t.actions[b], t.actions[c]);
    }
  }

  /** Neither users nor products matter to the invariant. */
  lemma OthersKeepInv(t: Tables, after: Tables, clock: int, now: int)
    requires Inv(t, clock) && clock <= now
    requires after.reports == t.reports && after.actions == t.actions && after.audits == t.audits
    ensures Inv(after, now)
  {
    forall i | 0 <= i < |after.reports| ensures ConsumedFor(after, after.reports[i]) {
      assert ConsumedFor(t, t.reports[i]);
    }
    forall a | 0 <= a < |t.actions| ensures PaidFor(after, a) {
      assert PaidFor(t, a);
    }
  }

  lemma SubmitKeepsInv(t: Tables, reporter: nat, target: Target, context: Context, clock: int, now: int)
    requires Inv(t, clock) && clock <= now
    ensures Inv(SubmitReport(t, reporter, target, context, now).0, now)
    ensures !SubmitReport(t, reporter, target, context, now).1.Failed?
  {
    TimePasses(t, clock, now);
    if ValidContext(target, context) && !AlreadyReported(t, reporter, target) {
      var r := Report(reporter, target, context, now, None);
      ReportKeepsInv(t, r, clock, now);
      var stored := t.(reports := t.reports + [r]);
      EvaluationKeepsInv(stored, target, now, now);
      ActsIffReached(stored, target, now);
    }
  }

  lemma StepKeepsInv(s: State, e: Event)
    requires Inv(s.tables, s.clock) && Possible(s, e)
    ensures Inv(Step(s, e).tables, e.now)
  {
    var (t, clock, now) := (s.tables, s.clock, e.now);
    TimePasses(t, clock, now);
    match e.command {
      case Submit(reporter, target, context) => SubmitKeepsInv(t, reporter, target, context, clock, now);
      case Evaluate(target) => EvaluationKeepsInv(t, target, clock, now);
      case Release(a) => ReleaseKeepsInv(t, a, clock, now);
      case Manual(target, start) => ManualKeepsInv(t, target, start, clock, now);
      case _ => OthersKeepInv(t, Step(s, e).tables, clock, now);
    }
  }

  lemma {:induction false} RunKeepsInv(s: State, run: seq<Event>)
    requires Inv(s.tables, s.clock) && PossibleRun(s, run)
    ensures Inv(Run(s, run).tables, Run(s, run).clock)
    decreases |run|
  {
    if run != [] {
      StepKeepsInv(s, run[0]);
      RunKeepsInv(Step(s, run[0]), run[1..]);
    }
  }

  // ---------- Main results ----------

  function Reporters(t: Tables, target: Target): set<nat> {
    set i | 0 <= i < |t.reports| && t.reports[i].target == target :: t.reports[i].reporter
  }

  predicate AutomaticOn(target: Target, a: Action) {
    a.automatic && a.target == target
  }

  function OnTarget(target: Target): Action -> bool {
    (a: Action) => AutomaticOn(target, a)
  }

  /** Users whose report on the target one of the first n actions consumed. */
  function Spent(t: Tables, target: Target, n: nat): set<nat> {
    set i | 0 <= i < |t.reports| && t.reports[i].target == target && t.reports[i].consumedBy.Some? && t.reports[i].consumedBy.value < n
      :: t.reports[i].reporter
  }

  lemma SpendsAnew(t: Tables, target: Target, n: nat, i: nat)
    requires Filed(t) && i < |t.reports| && t.reports[i].consumedBy == Some(n) && t.reports[i].target == target
    ensures t.reports[i].reporter !in Spent(t, target, n)
  {
    forall j | 0 <= j < |t.reports| && j != i ensures !SameClaim(t.reports[i], t.reports[j]) {
      assert if i < j then !SameClaim(t.reports[i], t.reports[j]) else !SameClaim(t.reports[j], t.reports[i]);
    }
  }

  lemma SpentGrows(t: Tables, target: Target, n: nat)
    requires Filed(t) && n < |t.actions| && AutomaticOn(target, t.actions[n]) && PaidFor(t, n)
    requires forall i :: 0 <= i < |t.reports| ==> ConsumedFor(t, t.reports[i])
    ensures |Spent(t, target, n + 1)| >= |Spent(t, target, n)| + 5
  {
    var (older, mine, all) := (Spent(t, target, n), ConsumedReporters(t.reports, n), Spent(t, target, n + 1));
    forall i | 0 <= i < |t.reports| && t.reports[i].consumedBy == Some(n)
      ensures t.reports[i].reporter in all && t.reports[i].reporter !in older
    {
      assert ConsumedFor(t, t.reports[i]);
      SpendsAnew(t, target, n, i);
    }
    assert older !! mine;
    assert older <= all && mine <= all;
    SubsetSize(older + mine, all);
  }

  lemma {:induction false} SpentBound(t: Tables, target: Target, clock: int, n: nat)
    requires Inv(t, clock) && n <= |t.actions|
    ensures 5 * Count(t.actions[..n], OnTarget(target)) <= |Spent(t, target, n)|
  {
    if n > 0 {
      SpentBound(t, target, clock, n - 1);
      assert t.actions[..n][..n - 1] == t.actions[..n - 1];
      if AutomaticOn(target, t.actions[n - 1]) {
        SpentGrows(t, target, n - 1);
      } else {
        SubsetSize(Spent(t, target, n - 1), Spent(t, target, n));
      }
    }
  }

  /** Each automatic action on a target costs five more distinct users who reported it. */
  lemma FiveReportersPerAction(run: seq<Event>, start: int, target: Target)
    requires PossibleRun(State(EMPTY, start), run)
    ensures var t := Run(State(EMPTY, start), run).tables;
            5 * Count(t.actions, OnTarget(target)) <= |Reporters(t, target)|
  {
    RunKeepsInv(State(EMPTY, start), run);
    var s := Run(State(EMPTY, start), run);
    var t := s.tables;
    assert t.actions[..|t.actions|] == t.actions;
    SpentBound(t, target, s.clock, |t.actions|);
    SubsetSize(Spent(t, target, |t.actions|), Reporters(t, target));
  }

  /** Automatic actions on one target apply over disjoint spans of time. */
  lemma AutomaticActionsNeverOverlap(run: seq<Event>, start: int, a: nat, b: nat, instant: int)
    requires PossibleRun(State(EMPTY, start), run)
    ensures var t := Run(State(EMPTY, start), run).tables;
            a < b < |t.actions| && t.actions[a].target == t.actions[b].target && t.actions[a].automatic && t.actions[b].automatic ==>
              !(t.actions[a].startsAt <= instant < EndOf(t.actions[a]) && t.actions[b].startsAt <= instant < EndOf(t.actions[b]))
  {
    RunKeepsInv(State(EMPTY, start), run);
    var t := Run(State(EMPTY, start), run).tables;
    assert a < b < |t.actions| ==> Before(t.actions[a], t.actions[b]);
  }

  /** A report survives every step; once consumed it stays with that action. */
  predicate Kept(r: Report, q: Report) {
    q == r || (r.consumedBy.None? && q == r.(consumedBy := q.consumedBy))
  }

  lemma StepKeepsReport(s: State, e: Event, i: nat)
    requires i < |s.tables.reports|
    ensures i < |Step(s, e).tables.reports| && Kept(s.tables.reports[i], Step(s, e).tables.reports[i])
  {
  }

  lemma {:induction false} ConsumedOnce(s: State, run: seq<Event>, i: nat)
    requires i < |s.tables.reports|
    ensures i < |Run(s, run).tables.reports| && Kept(s.tables.reports[i], Run(s, run).tables.reports[i])
    decreases |run|
  {
    if run != [] {
      StepKeepsReport(s, run[0], i);
      ConsumedOnce(Step(s, run[0]), run[1..], i);
    }
  }

  /** No submission in any run ends in the duplicate-contributor error: it stores its report, unless the
      parties or an earlier report of the same target stand in its way. */
  lemma SubmissionOutcome(run: seq<Event>, start: int, reporter: nat, target: Target, context: Context, now: int)
    requires PossibleRun(State(EMPTY, start), run) && Run(State(EMPTY, start), run).clock <= now
    ensures var t := Run(State(EMPTY, start), run).tables;
            var outcome := SubmitReport(t, reporter, target, context, now).1;
            && !outcome.Failed?
            && (outcome.Stored? <==> && ValidContext(target, context) && MayContribute(t, reporter, now)
                                     && TargetOpen(t, reporter, target, now) && reporter !in Reporters(t, target))
  {
    var s := Run(State(EMPTY, start), run);
    RunKeepsInv(State(EMPTY, start), run);
    SubmitKeepsInv(s.tables, reporter, target, context, s.clock, now);
    var t := s.tables;
    assert AlreadyReported(t, reporter, target) <==> reporter in Reporters(t, target);
  }
}

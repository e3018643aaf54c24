/** What a submission and a re-evaluation store, told from the rows alone
    (src/apps/moderation/services.py:135-370, policies.py:43-96). */
module ModerationOutcomes {
  import opened Base
  import opened Moderation
  import opened ModerationRuns

  const DAYS: int := 24 * 3600 * 1_000_000

  // ---------- Independent readings of the rows ----------

  /** An unreleased action on the target covers the instant. */
  ghost predicate Sanctioned(t: Tables, target: Target, now: int) {
    exists i :: 0 <= i < |t.actions| && t.actions[i].target == target && t.actions[i].releasedAt.None?
                && t.actions[i].startsAt <= now && now < t.actions[i].expiresAt
  }

  /** An active user of seven days or more who is under no action. */
  ghost predicate MayReport(t: Tables, user: nat, now: int) {
    user < |t.users| && t.users[user].active && t.users[user].joinedAt + 7 * DAYS <= now && !Sanctioned(t, UserTarget(user), now)
  }

  /** A target that the reporter may report: another active user, or another user's unarchived product,
      under no action. */
  ghost predicate MayBeReported(t: Tables, reporter: nat, target: Target, now: int) {
    && !Sanctioned(t, target, now)
    && (match target
        case UserTarget(u) => u < |t.users| && u != reporter && t.users[u].active
        case ProductTarget(p) => p < |t.products| && !t.products[p].archived && t.products[p].owner != reporter)
  }

  predicate ContextFits(target: Target, c: Context) {
    if target.ProductTarget? then c == OfProduct else c in {Profile, ProductInteraction, GlobalChat, DirectChat}
  }

  ghost predicate Reported(t: Tables, reporter: nat, target: Target) {
    exists i :: 0 <= i < |t.reports| && t.reports[i].reporter == reporter && t.reports[i].target == target
  }

  /** A report of the last seven days that no action has used, by someone who may report now. */
  ghost predicate Open(t: Tables, target: Target, now: int, i: int) {
    && 0 <= i < |t.reports| && t.reports[i].target == target && t.reports[i].consumedBy.None?
    && now - 7 * DAYS <= t.reports[i].createdAt && t.reports[i].createdAt <= now
    && MayReport(t, t.reports[i].reporter, now)
  }

  /** Five different reporters with open reports; against a user, in two contexts or more. */
  ghost predicate Enough(t: Tables, target: Target, now: int) {
    && (exists who: set<nat> :: |who| == 5 && forall u :: u in who ==> OpenReportBy(t, target, now, u))
    && (target.UserTarget? ==> exists i, j :: Open(t, target, now, i) && Open(t, target, now, j) && t.reports[i].context != t.reports[j].context)
  }

  ghost predicate OpenReportBy(t: Tables, target: Target, now: int, u: nat) {
    exists i :: Open(t, target, now, i) && t.reports[i].reporter == u
  }

  // ---------- They are what the code tests ----------

  lemma SanctionedIff(t: Tables, target: Target, now: int)
    ensures Sanctioned(t, target, now) <==> HasActiveAction(t, target, now)
  {
    if i :| 0 <= i < |t.actions| && t.actions[i].target == target && t.actions[i].releasedAt.None?
            && t.actions[i].startsAt <= now && now < t.actions[i].expiresAt {
      assert IsActive(t.actions[i], now);
    }
    if i :| 0 <= i < |t.actions| && t.actions[i].target == target && IsActive(t.actions[i], now) {
      assert t.actions[i].startsAt <= now;
    }
  }

  lemma MayReportIff(t: Tables, user: nat, now: int)
    ensures MayReport(t, user, now) <==> MayContribute(t, user, now)
  {
    SanctionedIff(t, UserTarget(user), now);
  }

  lemma MayBeReportedIff(t: Tables, reporter: nat, target: Target, now: int)
    ensures MayBeReported(t, reporter, target, now) <==> TargetOpen(t, reporter, target, now)
  {
    SanctionedIff(t, target, now);
  }

  lemma OpenIff(t: Tables, target: Target, now: int, i: int)
    ensures Open(t, target, now, i) <==> Counted(t, target, now, i)
  {
    if 0 <= i < |t.reports| {
      MayReportIff(t, t.reports[i].reporter, now);
    }
  }

  lemma OpenReporters(t: Tables, target: Target, now: int, u: nat)
    ensures OpenReportBy(t, target, now, u) <==> u in EligibleReporters(t, target, now)
  {
    if u in EligibleReporters(t, target, now) {
      var i :| 0 <= i < |t.reports| && Counts(t, target, now, t.reports[i]) && t.reports[i].reporter == u;
      OpenIff(t, target, now, i);
    }
    if i :| Open(t, target, now, i) && t.reports[i].reporter == u {
      OpenIff(t, target, now, i);
    }
  }

  /** A set of at least five holds one of exactly five. */
  lemma {:induction false} FiveOf(s: set<nat>) returns (five: set<nat>)
    requires |s| >= 5
    ensures five <= s && |five| == 5
    decreases |s|
  {
    if |s| == 5 {
      five := s;
    } else {
      var x :| x in s;
      five := FiveOf(s - {x});
    }
  }

  lemma FiveReporters(t: Tables, target: Target, now: int)
    ensures |EligibleReporters(t, target, now)| >= 5 <==>
            exists who: set<nat> :: |who| == 5 && forall u :: u in who ==> OpenReportBy(t, target, now, u)
  {
    var s := EligibleReporters(t, target, now);
    forall u: nat ensures OpenReportBy(t, target, now, u) <==> u in s {
      OpenReporters(t, target, now, u);
    }
    if |s| >= 5 {
      var five := FiveOf(s);
      assert forall u :: u in five ==> OpenReportBy(t, target, now, u);
    }
    if who: set<nat> :| |who| == 5 && forall u :: u in who ==> OpenReportBy(t, target, now, u) {
      SubsetSize(who, s);
    }
  }

  lemma EnoughIff(t: Tables, target: Target, now: int)
    ensures Enough(t, target, now) <==> Reached(t, target, now)
  {
    FiveReporters(t, target, now);
    forall i ensures Open(t, target, now, i) <==> Counted(t, target, now, i) {
      OpenIff(t, target, now, i);
    }
    if i, j :| Counted(t, target, now, i) && Counted(t, target, now, j) && t.reports[i].context != t.reports[j].context {
      assert Open(t, target, now, i) && Open(t, target, now, j);
    }
    if i, j :| Open(t, target, now, i) && Open(t, target, now, j) && t.reports[i].context != t.reports[j].context {
      assert Counted(t, target, now, i) && Counted(t, target, now, j);
    }
  }

  // ---------- Effects ----------

  /** One seven-day action on the target with one audit event; exactly the open reports are used by it; a
      user target's epoch moves on. */
  ghost predicate OneAction(t: Tables, after: Tables, target: Target, now: int) {
    var a := |t.actions|;
    && after.actions == t.actions + [Action(target, now, now + 7 * DAYS, None, true)]
    && after.audits == t.audits + [a]
    && |after.reports| == |t.reports|
    && (forall i :: 0 <= i < |t.reports| ==>
          after.reports[i] == if Open(t, target, now, i) then t.reports[i].(consumedBy := Some(a)) else t.reports[i])
    && after.products == t.products && |after.users| == |t.users|
    && (forall u :: 0 <= u < |t.users| ==>
          after.users[u] == if target == UserTarget(u) then t.users[u].(epoch := t.users[u].epoch + 1) else t.users[u])
  }

  /** An evaluation acts exactly when nothing sanctions the target and there are enough open reports; it has
      then exactly that effect, and otherwise none. */
  lemma EvaluationEffect(t: Tables, target: Target, now: int)
    requires Filed(t)
    ensures var (after, outcome) := EvaluateLocked(t, target, now);
            if !Sanctioned(t, target, now) && Enough(t, target, now) then outcome == Acted(|t.actions|) && OneAction(t, after, target, now)
            else outcome == NoAction && after == t
  {
    SanctionedIff(t, target, now);
    EnoughIff(t, target, now);
    ActsIffReached(t, target, now);
    if Acts(t, target, now) {
      ActionEffects(t, target, now);
      forall i ensures Open(t, target, now, i) <==> Counted(t, target, now, i) {
        OpenIff(t, target, now, i);
      }
    }
  }

  function WithReport(t: Tables, reporter: nat, target: Target, context: Context, now: int): Tables {
    t.(reports := t.reports + [Report(reporter, target, context, now, None)])
  }

  lemma StillFiled(t: Tables, reporter: nat, target: Target, context: Context, now: int)
    requires Filed(t) && ContextFits(target, context) && !Reported(t, reporter, target)
    ensures Filed(WithReport(t, reporter, target, context, now))
  {
    var after := WithReport(t, reporter, target, context, now);
    forall i, j | 0 <= i < j < |after.reports| ensures !SameClaim(after.reports[i], after.reports[j]) {
      assert j < |t.reports| ==> !SameClaim(t.reports[i], t.reports[j]);
    }
  }

  /** A submission is stored exactly when its context fits, the reporter may report, the target may be
      reported, and the reporter has not reported it before. */
  lemma StoredIff(t: Tables, reporter: nat, target: Target, context: Context, now: int)
    requires Filed(t)
    ensures var outcome := SubmitReport(t, reporter, target, context, now).1;
            var allowed := ContextFits(target, context) && MayReport(t, reporter, now) && MayBeReported(t, reporter, target, now);
            && (outcome.Rejected? <==> !allowed)
            && (outcome.Duplicate? <==> allowed && Reported(t, reporter, target))
            && (outcome.Stored? <==> allowed && !Reported(t, reporter, target))
  {
    MayReportIff(t, reporter, now);
    MayBeReportedIff(t, reporter, target, now);
    assert Reported(t, reporter, target) <==> AlreadyReported(t, reporter, target);
    if ContextFits(target, context) && !Reported(t, reporter, target) {
      StillFiled(t, reporter, target, context, now);
      EvaluationEffect(WithReport(t, reporter, target, context, now), target, now);
    }
  }

  /** A stored submission adds its report and evaluates with it: an action exactly when that makes enough, in
      which case the new report is used with the others; otherwise just the report. Any other answer leaves
      the tables as they were. */
  lemma SubmissionEffect(t: Tables, reporter: nat, target: Target, context: Context, now: int)
    requires Filed(t)
    ensures var (after, outcome) := SubmitReport(t, reporter, target, context, now);
            var added := WithReport(t, reporter, target, context, now);
            if outcome.Stored? then
              && outcome.report == |t.reports|
              && Open(added, target, now, |t.reports|)
              && if Enough(added, target, now) then outcome.evaluation == Acted(|t.actions|) && OneAction(added, after, target, now)
                 else outcome.evaluation == NoAction && after == added
            else after == t
  {
    StoredIff(t, reporter, target, context, now);
    if SubmitReport(t, reporter, target, context, now).1.Stored? {
      var added := WithReport(t, reporter, target, context, now);
      StillFiled(t, reporter, target, context, now);
      EvaluationEffect(added, target, now);
      SameActions(t, added, target, now);
      SameActions(t, added, UserTarget(reporter), now);
    }
  }

  lemma SameActions(t: Tables, added: Tables, target: Target, now: int)
    requires added.actions == t.actions
    ensures Sanctioned(added, target, now) <==> Sanctioned(t, target, now)
  {
  }

  /** A re-evaluation is an error for a missing user and a missing or archived product; an inactive user is
      left alone; otherwise it is an evaluation. */
  lemma ReevaluationEffect(t: Tables, target: Target, now: int)
    requires Filed(t)
    ensures var (after, outcome) := EvaluateThreshold(t, target, now);
            var missing := match target
                           case UserTarget(u) => u >= |t.users|
                           case ProductTarget(p) => p >= |t.products| || t.products[p].archived;
            if missing then outcome == EvaluationError && after == t
            else if (target.UserTarget? && !t.users[target.user].active) || Sanctioned(t, target, now) || !Enough(t, target, now) then
              outcome == NoAction && after == t
            else outcome == Acted(|t.actions|) && OneAction(t, after, target, now)
  {
    SanctionedIff(t, target, now);
    EvaluationEffect(t, target, now);
  }
}

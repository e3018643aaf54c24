/** The moderation commands as the source runs them (src/apps/moderation/services.py:126-370,
    policies.py:66-96), over tables changed in place. */
module ModerationService {
  import opened Base
  import opened Moderation

  /** The eligible reports, in table order, over the first n rows. */
  function Eligible(t: Tables, target: Target, now: int, n: nat): seq<nat>
    requires n <= |t.reports|
  {
    if n == 0 then []
    else Eligible(t, target, now, n - 1) + (if Counts(t, target, now, t.reports[n - 1]) then [n - 1] else [])
  }

  lemma {:induction false} EligibleAre(t: Tables, target: Target, now: int, n: nat)
    requires n <= |t.reports|
    ensures forall i :: i in Eligible(t, target, now, n) <==> 0 <= i < n && Counts(t, target, now, t.reports[i])
    ensures forall k, l :: 0 <= k < l < |Eligible(t, target, now, n)| ==> Eligible(t, target, now, n)[k] < Eligible(t, target, now, n)[l]
  {
    if n > 0 {
      EligibleAre(t, target, now, n - 1);
      var before := Eligible(t, target, now, n - 1);
      assert forall k :: 0 <= k < |before| ==> before[k] in before;
    }
  }

  function Marked(reports: seq<Report>, ids: seq<nat>, action: nat): seq<Report> {
    seq(|reports|, i requires 0 <= i < |reports| => if i in ids then reports[i].(consumedBy := Some(action)) else reports[i])
  }

  /** Marking the collected rows is consuming the reports that count. */
  lemma MarkedEligible(t: Tables, target: Target, now: int, action: nat)
    ensures Marked(t.reports, Eligible(t, target, now, |t.reports|), action) == Consume(t, target, now, action)
    ensures forall k :: 0 <= k < |Eligible(t, target, now, |t.reports|)| ==> Eligible(t, target, now, |t.reports|)[k] < |t.reports|
  {
    EligibleAre(t, target, now, |t.reports|);
    var ids := Eligible(t, target, now, |t.reports|);
    assert forall k :: 0 <= k < |ids| ==> ids[k] in ids;
  }

  /** The contexts of the loop's seen ones hold exactly the seen reporters, each once. */
  ghost predicate SeenSoFar(byContext: map<Context, set<nat>>, done: set<Context>, seen: set<nat>) {
    && done <= byContext.Keys
    && (forall u :: u in seen <==> exists c :: c in done && u in byContext[c])
    && (forall c, d, u :: c in done && d in done && c != d && u in byContext[c] ==> u !in byContext[d])
  }

  lemma SeenExtends(byContext: map<Context, set<nat>>, done: set<Context>, seen: set<nat>, c: Context)
    requires SeenSoFar(byContext, done, seen) && c in byContext && seen * byContext[c] == {}
    ensures SeenSoFar(byContext, done + {c}, seen + byContext[c])
  {
    var group := byContext[c];
    assert forall u :: u in group ==> u !in seen by {
      assert forall u :: u in seen * group <==> u in seen && u in group;
    }
  }

  /** A reporter seen before in another context. */
  lemma SeenTwice(byContext: map<Context, set<nat>>, done: set<Context>, seen: set<nat>, c: Context)
    requires SeenSoFar(byContext, done, seen) && c in byContext && c !in done && seen * byContext[c] != {}
    ensures Overlapping(byContext)
  {
    var u :| u in seen * byContext[c];
    var e :| e in done && u in byContext[e];
  }

  lemma SeenAll(byContext: map<Context, set<nat>>, seen: set<nat>)
    requires SeenSoFar(byContext, byContext.Keys, seen)
    ensures seen == AllReporters(byContext) && !Overlapping(byContext)
  {
  }

  /** The loop: every reporter once, unless a context is invalid or a reporter shows up again. */
  method SeenReporters(target: Target, byContext: map<Context, set<nat>>) returns (seen: Option<set<nat>>)
    ensures seen.None? <==> (exists c :: c in byContext && !ValidContext(target, c)) || Overlapping(byContext)
    ensures seen.Some? ==> seen.value == AllReporters(byContext)
  {
    var found: set<nat> := {};
    var todo := byContext.Keys;
    while todo != {}
      invariant todo <= byContext.Keys
      invariant SeenSoFar(byContext, byContext.Keys - todo, found)
      invariant forall c :: c in byContext.Keys - todo ==> ValidContext(target, c)
      decreases todo
    {
      var c :| c in todo;
      if !ValidContext(target, c) {
        return None;
      }
      if found * byContext[c] != {} {
        SeenTwice(byContext, byContext.Keys - todo, found, c);
        return None;
      }
      SeenExtends(byContext, byContext.Keys - todo, found, c);
      assert byContext.Keys - (todo - {c}) == byContext.Keys - todo + {c};
      found := found + byContext[c];
      todo := todo - {c};
    }
    assert byContext.Keys - todo == byContext.Keys;
    SeenAll(byContext, found);
    return Some(found);
  }

  /** qualifies_for_action: one pass over the contexts, then the thresholds. */
  method QualifiesForAction(target: Target, byContext: map<Context, set<nat>>) returns (d: Decision)
    ensures d == Decide(target, byContext)
  {
    var seen := SeenReporters(target, byContext);
    if seen.None? {
      return PolicyError;
    }
    match target {
      case ProductTarget(_) =>
        d := Qualifies(Context.OfProduct in byContext && |byContext[Context.OfProduct]| >= REPORTER_THRESHOLD);
      case UserTarget(_) =>
        var distinct := set c | c in byContext && byContext[c] != {};
        d := Qualifies(|seen.value| >= REPORTER_THRESHOLD && |distinct| >= CONTEXT_THRESHOLD);
    }
  }

  class Service {
    var users: seq<User>
    var products: seq<Product>
    var reports: seq<Report>
    var actions: seq<Action>
    var audits: seq<nat>

    constructor ()
      ensures View() == Tables([], [], [], [], [])
    {
      users, products, reports, actions, audits := [], [], [], [], [];
    }

    function View(): Tables
      reads this
    {
      Tables(users, products, reports, actions, audits)
    }

    /** _qualifying_reports: the eligible rows and their reporters by context, collected in one loop. */
    method QualifyingReports(target: Target, now: int) returns (eligible: seq<nat>, byContext: map<Context, set<nat>>)
      ensures eligible == Eligible(View(), target, now, |reports|)
      ensures byContext == ByContext(View(), target, now, |reports|)
    {
      eligible, byContext := [], map[];
      for i := 0 to |reports|
        invariant eligible == Eligible(View(), target, now, i)
        invariant byContext == ByContext(View(), target, now, i)
      {
        var r := reports[i];
        if r.target == target && r.consumedBy.None? && now - REPORT_WINDOW <= r.createdAt <= now {
          if MayContribute(View(), r.reporter, now) {
            eligible := eligible + [i];
            var group := if r.context in byContext then byContext[r.context] else {};
            byContext := byContext[r.context := group + {r.reporter}];
          }
        }
      }
    }

    method ConsumeReports(ids: seq<nat>, action: nat)
      requires forall k :: 0 <= k < |ids| ==> ids[k] < |reports|
      modifies this`reports
      ensures reports == Marked(old(reports), ids, action)
    {
      for k := 0 to |ids|
        invariant reports == Marked(old(reports), ids[..k], action)
      {
        reports := reports[ids[k] := reports[ids[k]].(consumedBy := Some(action))];
        assert ids[..k + 1] == ids[..k] + [ids[k]];
      }
      assert ids[..|ids|] == ids;
    }

    method EvaluateLocked(target: Target, now: int) returns (r: Evaluation)
      modifies this
      ensures (View(), r) == Moderation.EvaluateLocked(old(View()), target, now)
    {
      if HasActiveAction(View(), target, now) {
        return NoAction;
      }
      var eligible, byContext := QualifyingReports(target, now);
      var decision := QualifiesForAction(target, byContext);
      if decision.PolicyError? {
        return EvaluationError;
      }
      if !decision.yes {
        return NoAction;
      }
      var action := |actions|;
      MarkedEligible(View(), target, now, action);
      actions := actions + [Action(target, now, now + ACTION_DURATION, None, true)];
      ConsumeReports(eligible, action);
      if target.UserTarget? && target.user < |users| {
        users := users[target.user := users[target.user].(epoch := users[target.user].epoch + 1)];
      }
      audits := audits + [action];
      return Acted(action);
    }

    /** submit_report: any error rolls the whole submission back. */
    method SubmitReport(reporter: nat, target: Target, context: Context, now: int) returns (r: Submission)
      modifies this
      ensures (View(), r) == Moderation.SubmitReport(old(View()), reporter, target, context, now)
    {
      if !ValidContext(target, context) {
        return Rejected;
      }
      if !MayContribute(View(), reporter, now) || !TargetOpen(View(), reporter, target, now) {
        return Rejected;
      }
      if AlreadyReported(View(), reporter, target) {
        return Duplicate;
      }
      var (users0, reports0, actions0, audits0) := (users, reports, actions, audits);
      reports := reports + [Report(reporter, target, context, now, None)];
      var evaluation := EvaluateLocked(target, now);
      if evaluation.EvaluationError? {
        users, reports, actions, audits := users0, reports0, actions0, audits0;
        return Failed;
      }
      return Stored(|reports0|, evaluation);
    }

    method EvaluateThreshold(target: Target, now: int) returns (r: Evaluation)
      modifies this
      ensures (View(), r) == Moderation.EvaluateThreshold(old(View()), target, now)
    {
      match target {
        case UserTarget(u) =>
          if u >= |users| {
            return EvaluationError;
          }
          if !users[u].active || HasActiveAction(View(), target, now) {
            return NoAction;
          }
        case ProductTarget(p) =>
          if p >= |products| || products[p].archived {
            return EvaluationError;
          }
          if HasActiveAction(View(), target, now) {
            return NoAction;
          }
      }
      r := EvaluateLocked(target, now);
    }
  }
}

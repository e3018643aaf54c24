/** Every interleaving of revocation workers (src/apps/accounts/withdrawal.py:157-249). */
module RevocationRuns {
  import opened Base
  import opened Revocation

  // ---------- Status and lease ----------

  /** The two check constraints on the row, and a lease of two minutes. */
  predicate Consistent(task: Task) {
    && (match task.status
        case Processing => task.lease.Some? && task.heartbeat.Some? && task.completedAt.None?
        case Completed => task.lease.None? && task.heartbeat.None? && task.completedAt.Some?
        case _ => task.lease.None? && task.heartbeat.None? && task.completedAt.None?)
    && (task.lease.Some? && task.heartbeat.Some? ==> task.lease.value == task.heartbeat.value + LEASE)
  }

  // ---------- What a worker has done ----------

  /** The acts of one worker. */
  function Own(log: seq<Logged>, w: nat): seq<Act> {
    if log == [] then []
    else
      var last := log[|log| - 1];
      Own(log[..|log| - 1], w) + (if last.worker == w then [last.act] else [])
  }

  predicate EndsWith(acts: seq<Act>, tail: seq<Act>) {
    |tail| <= |acts| && acts[|acts| - |tail|..] == tail
  }

  predicate DidItsPart(acts: seq<Act>, phase: Phase) {
    match phase
    case Claimed => EndsWith(acts, [DidClaim])
    case SessionsGone => EndsWith(acts, [DidClaim, DidDelete])
    case CloseSent => EndsWith(acts, [DidClaim, DidDelete, DidSend])
    case PresenceGone => EndsWith(acts, [DidClaim, DidDelete, DidSend, DidClear])
    case _ => true
  }

  const FULL := [DidClaim, DidDelete, DidSend, DidClear]

  /** Entry k, if it completes the task, follows a full pass of the same worker since its own claim. */
  ghost predicate Earned(log: seq<Logged>, k: nat)
    requires k < |log|
  {
    log[k].act.DidFinish? ==> EndsWith(Own(log[..k], log[k].worker), FULL)
  }

  predicate IsClaim(entry: Logged) {
    entry.act.DidClaim?
  }

  function Claims(log: seq<Logged>): nat {
    Count(log, IsClaim)
  }

  predicate Logs(log: seq<Logged>, act: Act) {
    exists k :: 0 <= k < |log| && log[k].act == act
  }

  /** The indexed sessions are gone once some worker has deleted them, and a completion is logged. */
  predicate Effects(s: State) {
    && (Logs(s.log, DidDelete) ==> s.sessions !! s.indexed)
    && (s.task.status.Completed? ==> Logs(s.log, DidFinish))
  }

  ghost predicate Inv(s: State) {
    && Consistent(s.task)
    && s.task.attempts == Claims(s.log)
    && (forall w :: 0 <= w < |s.workers| ==> DidItsPart(Own(s.log, w), s.workers[w].phase))
    && (forall k :: 0 <= k < |s.log| ==> Earned(s.log, k))
    && Effects(s)
  }

  lemma OwnAppend(log: seq<Logged>, entry: Logged)
    ensures forall w: nat :: Own(log + [entry], w) == Own(log, w) + (if entry.worker == w then [entry.act] else [])
  {
    assert (log + [entry])[..|log|] == log;
  }

  /** One more act of a worker that was in the phase before it. */
  lemma ActsExtend(acts: seq<Act>, act: Act, before: Phase, after: Phase)
    requires DidItsPart(acts, before)
    requires || (act.DidClaim? && after.Claimed?)
             || (before.Claimed? && act.DidDelete? && after.SessionsGone?)
             || (before.SessionsGone? && act.DidSend? && after.CloseSent?)
             || (before.CloseSent? && act.DidClear? && after.PresenceGone?)
             || after.Idle?
    ensures DidItsPart(acts + [act], after)
  {
  }

  /** What a step adds to the log. */
  function ActOf(s: State, e: Event): Option<Act> {
    match e.kind
    case Claim(seen) => if Claimable(s.task, seen) then Some(DidClaim) else None
    case DeleteSessions => Some(DidDelete)
    case SendClose => Some(DidSend)
    case ClearPresence => Some(DidClear)
    case Finish => Some(DidFinish)
    case Fail => Some(DidFail)
    case Die => Some(DidDie)
    case _ => None
  }

  lemma LogGrows(s: State, e: Event)
    requires Possible(s, e)
    ensures Step(s, e).log == match ActOf(s, e) case None => s.log case Some(act) => s.log + [Logged(e.worker, act)]
  {
  }

  lemma PhaseMoves(s: State, e: Event, w: nat)
    requires Possible(s, e) && w < |s.workers|
    ensures |Step(s, e).workers| == |s.workers|
    ensures var (before, after) := (s.workers[w].phase, Step(s, e).workers[w].phase);
            if w != e.worker then after == before
            else
              match ActOf(s, e)
              case None => after == before || after.Broken?
              case Some(DidClaim) => after.Claimed?
              case Some(DidDelete) => before.Claimed? && after.SessionsGone?
              case Some(DidSend) => before.SessionsGone? && after.CloseSent?
              case Some(DidClear) => before.CloseSent? && after.PresenceGone?
              case Some(_) => after.Idle?
  {
  }

  lemma PartKept(s: State, e: Event, w: nat)
    requires w < |s.workers| && DidItsPart(Own(s.log, w), s.workers[w].phase)
    requires Possible(s, e)
    ensures |Step(s, e).workers| == |s.workers| && DidItsPart(Own(Step(s, e).log, w), Step(s, e).workers[w].phase)
  {
    LogGrows(s, e);
    PhaseMoves(s, e, w);
    var act := ActOf(s, e);
    if act.Some? {
      OwnAppend(s.log, Logged(e.worker, act.value));
      if w == e.worker {
        ActsExtend(Own(s.log, w), act.value, s.workers[w].phase, Step(s, e).workers[w].phase);
      }
    }
  }

  lemma LogKeepsEarned(s: State, e: Event)
    requires Inv(s) && Possible(s, e)
    ensures var after := Step(s, e); forall k :: 0 <= k < |after.log| ==> Earned(after.log, k)
  {
    var after := Step(s, e);
    forall k | 0 <= k < |after.log| ensures Earned(after.log, k) {
      if k < |s.log| {
        assert after.log[..k] == s.log[..k];
        assert Earned(s.log, k);
      } else {
        assert after.log[..k] == s.log;
      }
    }
  }

  lemma LogsAppend(log: seq<Logged>, entry: Logged, act: Act)
    ensures Logs(log + [entry], act) <==> Logs(log, act) || entry.act == act
  {
    var longer := log + [entry];
    assert longer[|log|] == entry;
    assert forall k :: 0 <= k < |log| ==> longer[k] == log[k];
  }

  lemma StepKeepsEffects(s: State, e: Event)
    requires Effects(s) && Possible(s, e)
    ensures Effects(Step(s, e))
  {
    LogGrows(s, e);
    var act := ActOf(s, e);
    if act.Some? {
      LogsAppend(s.log, Logged(e.worker, act.value), DidDelete);
      LogsAppend(s.log, Logged(e.worker, act.value), DidFinish);
    }
  }

  lemma StepKeepsConsistent(s: State, e: Event)
    requires Consistent(s.task) && Possible(s, e)
    ensures Consistent(Step(s, e).task)
  {
  }

  lemma AttemptsGrow(s: State, e: Event)
    requires Possible(s, e)
    ensures Step(s, e).task.attempts == s.task.attempts + (if ActOf(s, e) == Some(DidClaim) then 1 else 0)
  {
  }

  lemma StepKeepsAttempts(s: State, e: Event)
    requires s.task.attempts == Claims(s.log) && Possible(s, e)
    ensures Step(s, e).task.attempts == Claims(Step(s, e).log)
  {
    LogGrows(s, e);
    AttemptsGrow(s, e);
    if ActOf(s, e).Some? {
      CountAppend(s.log, Logged(e.worker, ActOf(s, e).value), IsClaim);
    }
  }

  lemma StepKeepsInv(s: State, e: Event)
    requires Inv(s) && Possible(s, e)
    ensures Inv(Step(s, e))
  {
    var after := Step(s, e);
    StepKeepsConsistent(s, e);
    StepKeepsAttempts(s, e);
    StepKeepsEffects(s, e);
    LogKeepsEarned(s, e);
    forall w | 0 <= w < |after.workers| ensures DidItsPart(Own(after.log, w), after.workers[w].phase) {
      PhaseMoves(s, e, e.worker);
      PartKept(s, e, w);
    }
  }

  lemma {:induction false} RunKeepsInv(s: State, run: seq<Event>)
    requires Inv(s) && PossibleRun(s, run)
    ensures Inv(Run(s, run))
    decreases |run|
  {
    if run != [] {
      StepKeepsInv(s, run[0]);
      RunKeepsInv(Step(s, run[0]), run[1..]);
    }
  }

  // ---------- Main results ----------

  lemma {:induction false} OwnActsAreLogged(log: seq<Logged>, w: nat, i: nat) returns (k: nat)
    requires i < |Own(log, w)|
    ensures k < |log| && log[k] == Logged(w, Own(log, w)[i])
  {
    var n := |log| - 1;
    if i < |Own(log[..n], w)| {
      k := OwnActsAreLogged(log[..n], w, i);
    } else {
      k := n;
    }
  }

  /** In every run: the row is consistent, attempts counts the claims, each completion was earned by the
      worker that wrote it, and a completed task means that no indexed session is left. */
  lemma EveryRunIsSound(s: State, run: seq<Event>, k: nat)
    requires Initial(s) && PossibleRun(s, run)
    ensures var after := Run(s, run);
            && Consistent(after.task)
            && after.task.attempts == Claims(after.log)
            && (k < |after.log| && after.log[k].act.DidFinish? ==> EndsWith(Own(after.log[..k], after.log[k].worker), FULL))
            && (after.task.status.Completed? ==> after.sessions !! after.indexed)
  {
    RunKeepsInv(s, run);
    var after := Run(s, run);
    assert k < |after.log| ==> Earned(after.log, k);
    if after.task.status.Completed? {
      var f :| 0 <= f < |after.log| && after.log[f].act == DidFinish;
      assert Earned(after.log, f);
      var (prefix, w) := (after.log[..f], after.log[f].worker);
      var own := Own(prefix, w);
      assert own[|own| - 4..][1] == DidDelete;
      var d := OwnActsAreLogged(prefix, w, |own| - 3);
      assert after.log[d].act == DidDelete;
    }
  }

  /** A claim is taken exactly when the task is neither completed nor held under a running lease. */
  lemma ClaimedIff(s: State, e: Event)
    requires Inv(s) && Possible(s, e) && e.kind.Claim?
    ensures var after := Step(s, e);
            && (after.task.attempts == s.task.attempts + 1 <==> !s.task.status.Completed? && !Running(s.task, e.kind.seen))
            && (after.task.attempts == s.task.attempts + 1 ==>
                  && after.workers[e.worker].phase.Claimed? && after.task.status.Processing?
                  && after.task.heartbeat == Some(e.kind.seen) && after.task.lease == Some(e.kind.seen + 2 * 60 * 1_000_000))
            && (after.task.attempts != s.task.attempts + 1 ==> after == s.(clock := e.at))
  {
  }

  // ---------- When COMPLETED is final ----------

  /** No worker writes its outcome after its lease. */
  predicate Punctual(s: State, e: Event) {
    e.worker < |s.workers| && (e.kind.Finish? || e.kind.Fail? ==> e.at <= s.workers[e.worker].lease)
  }

  ghost predicate PunctualRun(s: State, run: seq<Event>)
    requires PossibleRun(s, run)
    decreases |run|
  {
    run == [] || (Punctual(s, run[0]) && PunctualRun(Step(s, run[0]), run[1..]))
  }

  predicate Live(s: State, w: nat) {
    w < |s.workers| && !s.workers[w].phase.Idle? && s.workers[w].lease >= s.clock
  }

  /** At most one worker is within its lease, and it holds the task. */
  ghost predicate OneHolder(s: State) {
    && (forall w: nat :: Live(s, w) ==> s.task.status.Processing? && s.task.lease == Some(s.workers[w].lease))
    && (forall v: nat, w: nat :: Live(s, v) && Live(s, w) ==> v == w)
  }

  lemma StillLive(s: State, e: Event, w: nat)
    requires Possible(s, e) && Live(Step(s, e), w)
    ensures Live(s, w) || (e.kind.Claim? && w == e.worker && Claimable(s.task, e.kind.seen))
    ensures Live(s, w) ==> Step(s, e).workers[w].lease == s.workers[w].lease || w == e.worker
  {
  }

  lemma StepKeepsOneHolder(s: State, e: Event)
    requires OneHolder(s) && Possible(s, e) && Punctual(s, e)
    ensures OneHolder(Step(s, e))
  {
    var after := Step(s, e);
    assert e.kind.Finish? || e.kind.Fail? ==> Live(s, e.worker);
    forall w: nat | Live(after, w) ensures after.task.status.Processing? && after.task.lease == Some(after.workers[w].lease) {
      StillLive(s, e, w);
    }
    forall v: nat, w: nat | Live(after, v) && Live(after, w) ensures v == w {
      StillLive(s, e, v);
      StillLive(s, e, w);
    }
  }

  lemma CompletedHolds(s: State, e: Event)
    requires OneHolder(s) && Possible(s, e) && Punctual(s, e) && s.task.status.Completed?
    ensures Step(s, e).task == s.task
  {
    if e.kind.Finish? || e.kind.Fail? {
      assert Live(s, e.worker);
    }
  }

  lemma {:induction false} PunctualRunsKeepCompleted(s: State, run: seq<Event>)
    requires OneHolder(s) && PossibleRun(s, run) && PunctualRun(s, run)
    ensures OneHolder(Run(s, run))
    ensures s.task.status.Completed? ==> Run(s, run).task == s.task
    decreases |run|
  {
    if run != [] {
      StepKeepsOneHolder(s, run[0]);
      if s.task.status.Completed? {
        CompletedHolds(s, run[0]);
      }
      PunctualRunsKeepCompleted(Step(s, run[0]), run[1..]);
    }
  }

  /** If no worker outlives its lease, at most one is at work at any time, and once the task is completed
      its row never changes again. */
  lemma CompletedIsFinalWhenPunctual(s: State, run: seq<Event>, more: seq<Event>)
    requires Initial(s) && PossibleRun(s, run) && PossibleRun(Run(s, run), more)
    requires PunctualRun(s, run) && PunctualRun(Run(s, run), more)
    ensures OneHolder(Run(s, run))
    ensures Run(s, run).task.status.Completed? ==> Run(Run(s, run), more).task == Run(s, run).task
  {
    PunctualRunsKeepCompleted(s, run);
    PunctualRunsKeepCompleted(Run(s, run), more);
  }

  /** In any run, the one step that reopens a completed task is a worker's failure handler. */
  lemma ReopenedIff(s: State, e: Event)
    requires Possible(s, e) && s.task.status.Completed?
    ensures !Step(s, e).task.status.Completed? <==> e.kind.Fail?
  {
  }

  lemma RunCons(s: State, e: Event, rest: seq<Event>, next: State)
    requires Possible(s, e) && Step(s, e) == next && PossibleRun(next, rest)
    ensures PossibleRun(s, [e] + rest) && Run(s, [e] + rest) == Run(next, rest)
  {
    assert ([e] + rest)[1..] == rest;
  }

  /** A worker under way that has not yet done everything: its handler may still run. */
  predicate MayFail(w: Worker) {
    w.phase in {Claimed, SessionsGone, CloseSent, Broken}
  }

  lemma NoneMayFailLasts(s: State, e: Event)
    requires Possible(s, e) && s.task.status.Completed?
    requires forall w :: 0 <= w < |s.workers| ==> !MayFail(s.workers[w])
    ensures Step(s, e).task.status.Completed?
    ensures forall w :: 0 <= w < |Step(s, e).workers| ==> !MayFail(Step(s, e).workers[w])
  {
    var after := Step(s, e);
    forall w | 0 <= w < |after.workers| ensures !MayFail(after.workers[w]) {
      PhaseMoves(s, e, e.worker);
      PhaseMoves(s, e, w);
      assert !MayFail(s.workers[w]);
    }
  }

  lemma {:induction false} StaysCompleted(s: State, run: seq<Event>)
    requires PossibleRun(s, run) && s.task.status.Completed?
    requires forall w :: 0 <= w < |s.workers| ==> !MayFail(s.workers[w])
    ensures Run(s, run).task.status.Completed?
    decreases |run|
  {
    if run != [] {
      NoneMayFailLasts(s, run[0]);
      StaysCompleted(Step(s, run[0]), run[1..]);
    }
  }

  /** The rest of a failing worker's pass. */
  function FailureOf(s: State, w: nat): seq<Event>
    requires w < |s.workers|
  {
    if s.workers[w].phase.Broken? then [Event(s.clock, w, Fail)] else [Event(s.clock, w, Raise)] + [Event(s.clock, w, Fail)]
  }

  lemma FailureReopens(s: State, w: nat)
    requires w < |s.workers| && MayFail(s.workers[w])
    ensures PossibleRun(s, FailureOf(s, w)) && Run(s, FailureOf(s, w)).task.status.Retry?
  {
    var fail := Event(s.clock, w, Fail);
    if s.workers[w].phase.Broken? {
      RunCons(s, fail, [], Step(s, fail));
      assert [fail] + [] == [fail];
    } else {
      var broke := Event(s.clock, w, Raise);
      var broken := Step(s, broke);
      RunCons(broken, fail, [], Step(broken, fail));
      assert [fail] + [] == [fail];
      RunCons(s, broke, [fail], broken);
    }
  }

  ghost predicate CanBeReopened(s: State) {
    exists run :: PossibleRun(s, run) && !Run(s, run).task.status.Completed?
  }

  /** The exact condition, read off the rows and workers as they are: a completed task can be reopened if
      and only if some worker is under way with an effect still to come or an exception to handle. */
  lemma CompletedIsFinalIff(s: State)
    requires s.task.status.Completed?
    ensures CanBeReopened(s) <==> exists w :: 0 <= w < |s.workers| && MayFail(s.workers[w])
  {
    if w :| 0 <= w < |s.workers| && MayFail(s.workers[w]) {
      FailureReopens(s, w);
    } else {
      forall run | PossibleRun(s, run) ensures Run(s, run).task.status.Completed? {
        StaysCompleted(s, run);
      }
    }
  }

  function Fresh(sessions: set<nat>, presence: set<nat>): State {
    State(Task(Pending, 0, 0, None, None, None), [Worker(Idle, 0), Worker(Idle, 0)], sessions, sessions, presence, 0, [])
  }

  /** Worker 0 fails before its lease ends, without having written that yet. */
  function Straggling(sessions: set<nat>, presence: set<nat>): State {
    State(Task(Processing, 1, 0, Some(0), Some(LEASE), None), [Worker(Broken, LEASE), Worker(Idle, 0)], sessions, sessions, presence, 1,
          [Logged(0, DidClaim)])
  }

  lemma Straggles(sessions: set<nat>, presence: set<nat>, rest: seq<Event>)
    requires PossibleRun(Straggling(sessions, presence), rest)
    ensures var run := [Event(0, 0, Claim(0))] + ([Event(1, 0, Raise)] + rest);
            && PossibleRun(Fresh(sessions, presence), run)
            && Run(Fresh(sessions, presence), run) == Run(Straggling(sessions, presence), rest)
  {
    var s := Fresh(sessions, presence);
    var claimed := Step(s, Event(0, 0, Claim(0)));
    RunCons(claimed, Event(1, 0, Raise), rest, Straggling(sessions, presence));
    RunCons(s, Event(0, 0, Claim(0)), [Event(1, 0, Raise)] + rest, claimed);
  }

  /** A full pass of worker 1, from a state in which it may claim. */
  function FullPass(at: int): seq<Event> {
    [Event(at, 1, Claim(at))] + ([Event(at, 1, DeleteSessions)] + ([Event(at, 1, SendClose)] + ([Event(at, 1, ClearPresence)] + ([Event(at, 1, Finish)] + []))))
  }

  lemma PassCompletes(s: State, at: int)
    requires |s.workers| == 2 && s.workers[1].phase.Idle? && s.clock <= at && Claimable(s.task, at)
    ensures PossibleRun(s, FullPass(at))
    ensures var after := Run(s, FullPass(at));
            after.task.status.Completed? && after.clock == at && |after.workers| == 2 && after.workers[0] == s.workers[0]
  {
    var s1 := Step(s, Event(at, 1, Claim(at)));
    var s2 := Step(s1, Event(at, 1, DeleteSessions));
    var s3 := Step(s2, Event(at, 1, SendClose));
    var s4 := Step(s3, Event(at, 1, ClearPresence));
    var s5 := Step(s4, Event(at, 1, Finish));
    var r4 := [Event(at, 1, Finish)] + [];
    var r3 := [Event(at, 1, ClearPresence)] + r4;
    var r2 := [Event(at, 1, SendClose)] + r3;
    var r1 := [Event(at, 1, DeleteSessions)] + r2;
    RunCons(s4, Event(at, 1, Finish), [], s5);
    RunCons(s3, Event(at, 1, ClearPresence), r4, s4);
    RunCons(s2, Event(at, 1, SendClose), r3, s3);
    RunCons(s1, Event(at, 1, DeleteSessions), r2, s2);
    RunCons(s, Event(at, 1, Claim(at)), r1, s1);
  }

  function LateFailure(): seq<Event> {
    [Event(0, 0, Claim(0))] + ([Event(1, 0, Raise)] + FullPass(LEASE + 1))
  }

  /** A worker that outlives its lease and then fails does reopen a completed task. */
  lemma LateFailureReopens(sessions: set<nat>, presence: set<nat>)
    ensures var (s, late) := (Fresh(sessions, presence), Event(LEASE + 2, 0, Fail));
            && Initial(s) && PossibleRun(s, LateFailure())
            && Run(s, LateFailure()).task.status.Completed?
            && Possible(Run(s, LateFailure()), late)
            && Step(Run(s, LateFailure()), late).task.status.Retry?
  {
    PassCompletes(Straggling(sessions, presence), LEASE + 1);
    Straggles(sessions, presence, FullPass(LEASE + 1));
  }
}

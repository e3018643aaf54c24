/** process_revocation_task as one worker runs it: claim, delete sessions, close sockets, clear presence,
    and write the outcome, with an exception possible in between (src/apps/accounts/withdrawal.py:157-263). */
module RevocationService {
  import opened Base
  import opened Revocation

  /** Where the pass raises, if it does: deleting sessions, no channel layer or a failed send, or Redis. */
  datatype Fault = NoFault | InDelete | InSend | InClear

  function Failing(s: State, w: nat, end: int): State
    requires w < |s.workers| && s.workers[w].phase in {Claimed, SessionsGone, CloseSent} && s.clock <= end
  {
    Step(Step(s, Event(end, w, Raise)), Event(end, w, Fail))
  }

  /** The pass in steps of the worker machine, claimed at at and ended at end. */
  function Pass(s: State, w: nat, seen: int, at: int, end: int, fault: Fault): State
    requires w < |s.workers| && s.workers[w].phase.Idle? && s.clock <= at <= end && seen <= at
  {
    var s1 := Step(s, Event(at, w, Claim(seen)));
    if !Claimable(s.task, seen) then s1
    else if fault.InDelete? then Failing(s1, w, end)
    else
      var s2 := Step(s1, Event(at, w, DeleteSessions));
      if fault.InSend? then Failing(s2, w, end)
      else
        var s3 := Step(s2, Event(at, w, SendClose));
        if fault.InClear? then Failing(s3, w, end)
        else Step(Step(s3, Event(at, w, ClearPresence)), Event(end, w, Finish))
  }

  /** A pass that may claim ends completed at its end, or in retry a minute later; sessions go unless deleting
      them raised, presence goes only when everything worked. A pass that may not claim changes no row. */
  lemma PassOutcome(s: State, w: nat, seen: int, at: int, end: int, fault: Fault)
    requires w < |s.workers| && s.workers[w].phase.Idle? && s.clock <= at <= end && seen <= at
    ensures var (before, after) := (s.task, Pass(s, w, seen, at, end, fault));
            var task := after.task;
            if before.status.Completed? || (before.status.Processing? && before.lease.Some? && before.lease.value >= seen) then
              task == before && after.sessions == s.sessions && after.presence == s.presence
            else
              && task.attempts == before.attempts + 1 && task.lease.None? && task.heartbeat.None?
              && (fault.NoFault? ==> task.status.Completed? && task.completedAt == Some(end) && task.availableAt == before.availableAt)
              && (!fault.NoFault? ==> task.status.Retry? && task.completedAt.None? && task.availableAt == end + 60 * 1_000_000)
              && after.sessions == (if fault.InDelete? then s.sessions else s.sessions - s.indexed)
              && after.presence == (if fault.NoFault? then {} else s.presence)
  {
  }

  class Service {
    var status: Status
    var attempts: nat
    var availableAt: int
    var heartbeat: Option<int>
    var lease: Option<int>
    var completedAt: Option<int>
    var workers: seq<Worker>
    var sessions: set<nat>
    var indexed: set<nat>
    var presence: set<nat>
    var clock: int
    var log: seq<Logged>

    constructor (crew: nat, sessions: set<nat>, now: int)
      ensures Initial(View()) && this.sessions == sessions == indexed && |workers| == crew && clock == now
    {
      status, attempts, availableAt, heartbeat, lease, completedAt := Pending, 0, now, None, None, None;
      workers := seq(crew, _ => Worker(Idle, now));
      this.sessions, indexed, presence, clock, log := sessions, sessions, {}, now, [];
    }

    function View(): State
      reads this
    {
      State(Task(status, attempts, availableAt, heartbeat, lease, completedAt), workers, sessions, indexed, presence, clock, log)
    }

    method Note(w: nat, at: int, phase: Phase, act: Act)
      requires w < |workers|
      modifies this`workers, this`clock, this`log
      ensures View() == Reached(old(View()), Event(at, w, Die), phase, act)
    {
      workers := workers[w := workers[w].(phase := phase)];
      clock := at;
      log := log + [Logged(w, act)];
    }

    /** The first transaction: false when the task is completed or held. */
    method Claim(w: nat, seen: int, at: int) returns (claimed: bool)
      requires Possible(View(), Event(at, w, Kind.Claim(seen)))
      modifies this
      ensures View() == Step(old(View()), Event(at, w, Kind.Claim(seen)))
      ensures claimed <==> Claimable(old(View()).task, seen)
      ensures !claimed ==> status == old(status)
    {
      if status.Completed? {
        clock := at;
        return false;
      }
      if status.Processing? && lease.Some? && lease.value >= seen {
        clock := at;
        return false;
      }
      status := Processing;
      attempts := attempts + 1;
      heartbeat := Some(seen);
      lease := Some(seen + LEASE);
      completedAt := None;
      workers := workers[w := Worker(Idle, seen + LEASE)];
      Note(w, at, Claimed, DidClaim);
      return true;
    }

    method HandleException(w: nat, end: int)
      requires w < |workers| && workers[w].phase in {Claimed, SessionsGone, CloseSent} && clock <= end
      modifies this
      ensures View() == Failing(old(View()), w, end)
    {
      status := Retry;
      availableAt := end + BACKOFF;
      heartbeat := None;
      lease := None;
      completedAt := None;
      Note(w, end, Idle, DidFail);
    }

    method Complete(w: nat, end: int)
      requires Possible(View(), Event(end, w, Finish))
      modifies this
      ensures View() == Step(old(View()), Event(end, w, Finish))
    {
      status := Completed;
      heartbeat := None;
      lease := None;
      completedAt := Some(end);
      Note(w, end, Idle, DidFinish);
    }

    /** True exactly when the task is completed afterwards. */
    method ProcessRevocationTask(w: nat, seen: int, at: int, end: int, fault: Fault) returns (done: bool)
      requires w < |workers| && workers[w].phase.Idle? && clock <= at <= end && seen <= at
      modifies this
      ensures View() == Pass(old(View()), w, seen, at, end, fault)
      ensures done <==> status.Completed?
      ensures done && !old(status).Completed? ==> sessions == old(sessions) - indexed && presence == {}
    {
      var claimed := Claim(w, seen, at);
      if !claimed {
        return status.Completed?;
      }
      if fault.InDelete? {
        HandleException(w, end);
        return false;
      }
      sessions := sessions - indexed;
      Note(w, at, SessionsGone, DidDelete);
      if fault.InSend? {
        HandleException(w, end);
        return false;
      }
      Note(w, at, CloseSent, DidSend);
      if fault.InClear? {
        HandleException(w, end);
        return false;
      }
      presence := {};
      Note(w, at, PresenceGone, DidClear);
      Complete(w, end);
      return true;
    }
  }
}

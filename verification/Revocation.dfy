/** The revocation task of a withdrawn account and any number of workers, each transaction or outside
    effect of a worker one step (src/apps/accounts/withdrawal.py:157-263, src/apps/accounts/models.py:63-135).
    Instants are microseconds. */
module Revocation {
  import opened Base

  const LEASE: int := 120_000_000
  const BACKOFF: int := 60_000_000

  datatype Status = Pending | Processing | Retry | Completed
  datatype Task = Task(status: Status, attempts: nat, availableAt: int, heartbeat: Option<int>, lease: Option<int>, completedAt: Option<int>)

  /** How far a worker has come since its claim; Broken once an exception reached its handler. */
  datatype Phase = Idle | Claimed | SessionsGone | CloseSent | PresenceGone | Broken
  datatype Worker = Worker(phase: Phase, lease: int)

  datatype Act = DidClaim | DidDelete | DidSend | DidClear | DidFinish | DidFail | DidDie
  datatype Logged = Logged(worker: nat, act: Act)

  datatype State = State(
    task: Task,
    workers: seq<Worker>,
    sessions: set<nat>,
    indexed: set<nat>,
    presence: set<nat>,
    clock: int,
    log: seq<Logged>)

  /** seen is the clock reading a claim uses, taken before it waits for the row lock. Die is a process
      that stops without running its handler; Touch a connection that is still open. */
  datatype Kind = Claim(seen: int) | DeleteSessions | SendClose | ClearPresence | Finish | Raise | Fail | Die | Touch(room: nat)
  datatype Event = Event(at: int, worker: nat, kind: Kind)

  predicate Running(task: Task, seen: int) {
    task.status.Processing? && task.lease.Some? && task.lease.value >= seen
  }

  predicate Claimable(task: Task, seen: int) {
    !task.status.Completed? && !Running(task, seen)
  }

  function ClaimedTask(task: Task, seen: int): Task {
    task.(status := Processing, attempts := task.attempts + 1, heartbeat := Some(seen), lease := Some(seen + LEASE), completedAt := None)
  }

  function FailedTask(task: Task, at: int): Task {
    task.(status := Retry, availableAt := at + BACKOFF, heartbeat := None, lease := None, completedAt := None)
  }

  function CompletedTask(task: Task, at: int): Task {
    task.(status := Completed, heartbeat := None, lease := None, completedAt := Some(at))
  }

  predicate Possible(s: State, e: Event) {
    && s.clock <= e.at && e.worker < |s.workers|
    && (match e.kind
        case Claim(seen) => s.workers[e.worker].phase.Idle? && seen <= e.at
        case DeleteSessions => s.workers[e.worker].phase.Claimed?
        case SendClose => s.workers[e.worker].phase.SessionsGone?
        case ClearPresence => s.workers[e.worker].phase.CloseSent?
        case Finish => s.workers[e.worker].phase.PresenceGone?
        case Raise => s.workers[e.worker].phase in {Claimed, SessionsGone, CloseSent}
        case Fail => s.workers[e.worker].phase.Broken?
        case Die => !s.workers[e.worker].phase.Idle?
        case Touch(_) => true)
  }

  function Reached(s: State, e: Event, phase: Phase, act: Act): State
    requires e.worker < |s.workers|
  {
    s.(workers := s.workers[e.worker := s.workers[e.worker].(phase := phase)], clock := e.at, log := s.log + [Logged(e.worker, act)])
  }

  function Step(s: State, e: Event): State
    requires Possible(s, e)
  {
    match e.kind
    case Claim(seen) =>
      if Claimable(s.task, seen) then
        Reached(s.(task := ClaimedTask(s.task, seen), workers := s.workers[e.worker := Worker(Idle, seen + LEASE)]), e, Claimed, DidClaim)
      else s.(clock := e.at)
    case DeleteSessions => Reached(s.(sessions := s.sessions - s.indexed), e, SessionsGone, DidDelete)
    case SendClose => Reached(s, e, CloseSent, DidSend)
    case ClearPresence => Reached(s.(presence := {}), e, PresenceGone, DidClear)
    case Finish => Reached(s.(task := CompletedTask(s.task, e.at)), e, Idle, DidFinish)
    case Raise => s.(workers := s.workers[e.worker := s.workers[e.worker].(phase := Broken)], clock := e.at)
    case Fail => Reached(s.(task := FailedTask(s.task, e.at)), e, Idle, DidFail)
    case Die => Reached(s, e, Idle, DidDie)
    case Touch(room) => s.(presence := s.presence + {room}, clock := e.at)
  }

  ghost predicate PossibleRun(s: State, run: seq<Event>)
    decreases |run|
  {
    run == [] || (Possible(s, run[0]) && PossibleRun(Step(s, run[0]), run[1..]))
  }

  function Run(s: State, run: seq<Event>): State
    requires PossibleRun(s, run)
    decreases |run|
  {
    if run == [] then s else Run(Step(s, run[0]), run[1..])
  }

  /** A task as withdraw_account creates it, with idle workers. */
  predicate Initial(s: State) {
    && s.task.status.Pending? && s.task.attempts == 0
    && s.task.heartbeat.None? && s.task.lease.None? && s.task.completedAt.None?
    && (forall w :: 0 <= w < |s.workers| ==> s.workers[w].phase.Idle?)
    && s.log == []
  }
}

/**
 The steps of the claim protocol, and of the runs with and without sweeps, are the use cases' own calls: carried out on a
 repository that holds a state's rows, each call leaves the rows of the state after the step, and reports its verdict.
 */
module ClaimCalls {
  import opened Prelude
  import opened Tasks
  import opened TaskStore
  import opened TaskUseCases
  import Protocol = ClaimProtocol
  import Sweeps = SweepTransparency

  method CreateStep(service: TaskService, ghost s: Protocol.State, fixed: Fixed)
    requires service.repo.Valid() && service.repo.tasks == s.rows && fixed.id !in s.rows
    modifies service.repo, service`events
    ensures Protocol.Enabled(s, Protocol.Create(fixed))
    ensures service.repo.tasks == Protocol.After(s, Protocol.Create(fixed)).rows
  {
    var _ := service.CreateTask(fixed, 0, Commits);
  }

  /** The read of a claim: what the repository lists is one of the lists the protocol allows. */
  method ReadStep(service: TaskService, ghost s: Protocol.State, ghost c: Protocol.CallId, taskType: TaskType, now: Time)
    returns (candidates: seq<Task>)
    requires service.repo.Valid() && service.repo.tasks == s.rows
    requires c in s.calls && s.calls[c].phase == Protocol.Captured && s.calls[c].taskType == taskType && s.calls[c].now == now
    ensures fresh(candidates)
    ensures Protocol.Enabled(s, Protocol.Read(c, Views(candidates)))
    ensures service.repo.tasks == Protocol.After(s, Protocol.Read(c, Views(candidates))).rows
  {
    candidates := service.repo.FindClaimableByType(taskType, now);
  }

  /** One turn of the candidate loop: the private claim, and the compare-and-set if it was accepted. */
  method TryStep(service: TaskService, ghost s: Protocol.State, ghost c: Protocol.CallId, t: Task,
                 station: StationId, caps: set<Capability>, now: Time, duration: Time)
    returns (won: bool)
    requires service.repo.Valid() && service.repo.tasks == s.rows && Protocol.Enabled(s, Protocol.Try(c))
    requires var call := s.calls[c];
             && call.next < |call.cands| && t.View() == call.cands[call.next]
             && call.station == station && call.caps == caps && call.now == now && call.duration == duration
    modifies t, service.repo, service`events
    ensures service.repo.tasks == Protocol.After(s, Protocol.Try(c)).rows
    ensures won <==> Protocol.After(s, Protocol.Try(c)).calls[c].phase.Won?
  {
    var refused := t.Claim(station, caps, now, duration);
    if refused.Some? {
      return false;
    }
    var ok;
    won, ok := service.PersistClaim(t, station, now, Commits);
  }

  method RenewStepCall(service: TaskService, ghost s: Protocol.State, id: TaskId, station: StationId, now: Time, configured: Time)
    returns (err: Option<UseCaseError>)
    requires service.repo.Valid() && service.repo.tasks == s.rows && s.clock == now
    modifies service.repo
    ensures service.repo.tasks == Protocol.After(s, Protocol.Renew(id, station, configured)).rows
    ensures err.None? <==> Protocol.After(s, Protocol.Renew(id, station, configured)).log != s.log
  {
    err := service.RenewLease(id, station, now, configured, false, Commits);
  }

  method CompleteStepCall(service: TaskService, ghost s: Protocol.State, id: TaskId, station: StationId, now: Time)
    returns (err: Option<UseCaseError>)
    requires service.repo.Valid() && service.repo.tasks == s.rows && s.clock == now
    modifies service.repo, service`events
    ensures service.repo.tasks == Protocol.After(s, Protocol.Complete(id, station)).rows
    ensures err.None? <==> Protocol.After(s, Protocol.Complete(id, station)).log == s.log + [Protocol.Completion(id, station, now)]
  {
    err := service.CompleteTask(id, station, now, false, Commits);
  }

  /** The sweep's treatment of one task. */
  method ReleaseStep(service: TaskService, ghost s: Protocol.State, id: TaskId, now: Time)
    requires service.repo.Valid() && service.repo.tasks == s.rows && s.clock == now && Protocol.Enabled(s, Protocol.ReleaseDue(id))
    modifies service.repo, service`events
    ensures service.repo.tasks == Protocol.After(s, Protocol.ReleaseDue(id)).rows
    ensures service.events == old(service.events) + [LeaseExpired(id, now)]
  {
    var found := service.repo.FindById(id);
    var t := found.value;
    var due := t.ExpireLeaseIfDue(now);
    var _ := service.SaveAndPublish(t, LeaseExpired(id, now), Commits);
  }

  /** The same call, whatever result it reports. */
  predicate SameCall(a: Sweeps.Op, b: Sweeps.Op) {
    match (a, b)
    case (ClaimOp(station, caps, taskType, duration, _), ClaimOp(station', caps', taskType', duration', _)) =>
      station == station' && caps == caps' && taskType == taskType' && duration == duration'
    case (RenewOp(id, station, duration, _), RenewOp(id', station', duration', _)) =>
      id == id' && station == station' && duration == duration'
    case (CompleteOp(id, station, _), CompleteOp(id', station', _)) => id == id' && station == station'
    case (_, _) => a == b
  }

  /** Any timed call of a run, carried out without a fault: its result is one the run may report, and its rows are the run's. */
  method CarryOut(service: TaskService, ghost rows: Rows, at: Time, op: Sweeps.Op) returns (ghost reported: Sweeps.Op)
    requires service.repo.Valid() && service.repo.tasks == rows
    requires op.CreateOp? ==> op.fixed.id !in rows
    modifies service.repo, service`events
    ensures service.repo.Valid()
    ensures Sweeps.Possible(rows, Sweeps.Timed(at, reported))
    ensures service.repo.tasks == Sweeps.Outcome(rows, Sweeps.Timed(at, reported))
    ensures SameCall(op, reported)
  {
    match op {
      case CreateOp(fixed) =>
        var _ := service.CreateTask(fixed, at, Commits);
        reported := op;
      case ClaimOp(station, caps, taskType, duration, _) =>
        var r;
        ghost var picked;
        r, picked := service.ClaimNext(station, Ok(Some(caps)), taskType, at, duration, false, Commits);
        reported := Sweeps.ClaimOp(station, caps, taskType, duration, picked);
      case RenewOp(id, station, duration, _) =>
        var err := service.RenewLease(id, station, at, duration, false, Commits);
        reported := Sweeps.RenewOp(id, station, duration, err);
      case CompleteOp(id, station, _) =>
        var err := service.CompleteTask(id, station, at, false, Commits);
        reported := Sweeps.CompleteOp(id, station, err);
      case SweepOp =>
        var freed, err;
        ghost var raised;
        freed, err, raised := service.ExpireLeases(at, false, _ => Commits);
        reported := op;
    }
  }
}

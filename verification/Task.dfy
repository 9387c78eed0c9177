/**
 The Task aggregate (internal/domain/task/task.go): Pending -> Claimed under a lease -> Completed,
 with an expired lease putting the task back in the pool.

 `Row` is a task's state as a value (what a repository stores); the functions over `Row` say what each
 operation does, and class `Task` is the mutable aggregate proved against them.
 */
module Tasks {
  import opened Prelude

  // Identifiers are only ever compared for equality.
  type TaskId = nat
  type StationId = nat
  type OrderRef = nat
  type Capability = nat
  type TaskType = string
  // Instants and durations, in nanoseconds.
  type Time = int

  const PICK: TaskType := "PICK"
  const PACK: TaskType := "PACK"
  const SLAM: TaskType := "SLAM"
  const REBIN: TaskType := "REBIN"

  datatype Status = Pending | Claimed | Completed

  datatype Lease = Lease(station: StationId, expiry: Time)

  datatype TaskError = CapabilityMismatch | AlreadyClaimed | NotClaimed | NotOwner | AlreadyCompleted

  /** The columns no operation of the aggregate ever changes. */
  datatype Fixed = Fixed(
    id: TaskId, taskType: TaskType, cpt: Time, orderRef: OrderRef,
    required: set<Capability>, fragile: bool, giftWrap: bool)

  datatype Row = Row(fixed: Fixed, status: Status, lease: Option<Lease>, claimedAt: Option<Time>)

  /** What every stored row satisfies: a lease exactly while Claimed. */
  predicate WellFormed(r: Row) {
    r.status == Claimed <==> r.lease.Some?
  }

  predicate Expired(l: Lease, now: Time) {
    l.expiry <= now
  }

  /** Claimed, and the lease has run out. */
  predicate LeaseDue(r: Row, now: Time) {
    r.status == Claimed && r.lease.Some? && Expired(r.lease.value, now)
  }

  predicate IsAvailable(r: Row, now: Time) {
    r.status == Pending || LeaseDue(r, now)
  }

  function NewRow(fixed: Fixed): Row {
    Row(fixed, Pending, None, None)
  }

  /** The row once a due lease has been given up; any other row is left alone. */
  function Freed(r: Row, now: Time): Row {
    if LeaseDue(r, now) then r.(status := Pending, lease := None) else r
  }

  function AfterClaim(r: Row, station: StationId, now: Time, duration: Time): Row {
    r.(status := Claimed, lease := Some(Lease(station, now + duration)), claimedAt := Some(now))
  }

  function ClaimResult(r: Row, station: StationId, caps: set<Capability>, now: Time, duration: Time): (Row, Option<TaskError>) {
    if r.status == Completed then (r, Some(AlreadyCompleted))
    else
      var f := Freed(r, now);
      if f.status == Claimed then (f, Some(AlreadyClaimed))
      else if !(r.fixed.required <= caps) then (f, Some(CapabilityMismatch))
      else (AfterClaim(f, station, now, duration), None)
  }

  /** The guard shared by renew and complete: who may act on the claim, and what a refusal leaves behind. */
  function ActiveClaim(r: Row, station: StationId, now: Time): (Row, Option<TaskError>) {
    if r.status == Completed then (r, Some(AlreadyCompleted))
    else if r.status != Claimed || r.lease.None? then (r, Some(NotClaimed))
    else if Expired(r.lease.value, now) then (r.(status := Pending, lease := None), Some(NotClaimed))
    else if r.lease.value.station != station then (r, Some(NotOwner))
    else (r, None)
  }

  function RenewResult(r: Row, station: StationId, now: Time, duration: Time): (Row, Option<TaskError>) {
    var (g, err) := ActiveClaim(r, station, now);
    if err.Some? then (g, err) else (r.(lease := Some(Lease(r.lease.value.station, now + duration))), None)
  }

  function CompleteResult(r: Row, station: StationId, now: Time): (Row, Option<TaskError>) {
    var (g, err) := ActiveClaim(r, station, now);
    if err.Some? then (g, err) else (r.(status := Completed, lease := None), None)
  }

  /** The mutable aggregate. The fixed columns have no setter in the source, so they are constants here. */
  class Task {
    const fixed: Fixed
    var status: Status
    var lease: Option<Lease>
    var claimedAt: Option<Time>

    function View(): Row
      reads this
    {
      Row(fixed, status, lease, claimedAt)
    }

    /** A new task, Pending. */
    constructor New(fixed: Fixed)
      ensures View() == NewRow(fixed)
    {
      this.fixed := fixed;
      status, lease, claimedAt := Pending, None, None;
    }

    /** A task rebuilt from stored state. */
    constructor Rehydrate(r: Row)
      ensures View() == r
    {
      fixed, status, lease, claimedAt := r.fixed, r.status, r.lease, r.claimedAt;
    }

    method ExpireLeaseIfDue(now: Time) returns (freed: bool)
      modifies this
      ensures freed == LeaseDue(old(View()), now)
      ensures View() == Freed(old(View()), now)
    {
      if status != Claimed || lease.None? || !Expired(lease.value, now) {
        return false;
      }
      status := Pending;
      lease := None;
      return true;
    }

    method Claim(station: StationId, caps: set<Capability>, now: Time, duration: Time) returns (err: Option<TaskError>)
      modifies this
      ensures (View(), err) == ClaimResult(old(View()), station, caps, now, duration)
    {
      if status == Completed {
        return Some(AlreadyCompleted);
      }
      var _ := ExpireLeaseIfDue(now);
      if status == Claimed {
        return Some(AlreadyClaimed);
      }
      if !(fixed.required <= caps) {
        return Some(CapabilityMismatch);
      }
      status := Claimed;
      lease := Some(Lease(station, now + duration));
      claimedAt := Some(now);
      return None;
    }

    method RenewLease(station: StationId, now: Time, duration: Time) returns (err: Option<TaskError>)
      modifies this
      ensures (View(), err) == RenewResult(old(View()), station, now, duration)
    {
      if status == Completed {
        return Some(AlreadyCompleted);
      }
      if status != Claimed || lease.None? {
        return Some(NotClaimed);
      }
      if Expired(lease.value, now) {
        status, lease := Pending, None;
        return Some(NotClaimed);
      }
      if lease.value.station != station {
        return Some(NotOwner);
      }
      lease := Some(lease.value.(expiry := now + duration));
      return None;
    }

    method Complete(station: StationId, now: Time) returns (err: Option<TaskError>)
      modifies this
      ensures (View(), err) == CompleteResult(old(View()), station, now)
    {
      if status == Completed {
        return Some(AlreadyCompleted);
      }
      if status != Claimed || lease.None? {
        return Some(NotClaimed);
      }
      if Expired(lease.value, now) {
        status, lease := Pending, None;
        return Some(NotClaimed);
      }
      if lease.value.station != station {
        return Some(NotOwner);
      }
      status, lease := Completed, None;
      return None;
    }
  }
}

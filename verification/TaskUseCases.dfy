/**
 The task use cases (internal/application/usecases: create_task.go, claim_next.go, renew_lease.go,
 complete_task.go, expire_leases.go), each as one call run on its own against the repository.

 The functions at the top say what one call does to the stored rows; the race between calls is in ClaimProtocol.
 Reads may fail, and so may the scope around a save and its event; what a scope's own statements do to its fate is in
 module Scopes.
 */
module TaskUseCases {
  import opened Prelude
  import opened Tasks
  import opened TaskStore

  const DEFAULT_LEASE_DURATION: Time := 5 * 60 * 1_000_000_000

  datatype UseCaseError = ReadFailed | ScopeFailed | TaskNotFound | StationNotFound | NoClaimableTask | Refused(reason: TaskError)

  /**
   How the scope of a save and its event ends. SavedOnly is for the configuration without a transaction: the save
   stands although the event failed.
   */
  datatype Fate = Commits | RollsBack | CommitsButErrs | SavedOnly

  predicate Keeps(fate: Fate) {
    fate != RollsBack
  }

  predicate Announces(fate: Fate) {
    fate == Commits || fate == CommitsButErrs
  }

  datatype Event =
    | TaskCreated(id: TaskId, at: Time)
    | TaskClaimed(id: TaskId, station: StationId, at: Time)
    | TaskCompleted(id: TaskId, station: StationId, at: Time)
    | LeaseExpired(id: TaskId, at: Time)

  /** A duration that is zero or negative means "not configured". */
  function EffectiveDuration(configured: Time): (d: Time)
    ensures d > 0
  {
    if configured <= 0 then DEFAULT_LEASE_DURATION else configured
  }

  /** Every key holds its own well-formed row. */
  predicate Sound(rows: Rows) {
    forall id :: id in rows ==> rows[id].fixed.id == id && WellFormed(rows[id])
  }

  // ---- What one call does ----

  function RenewStep(rows: Rows, id: TaskId, station: StationId, now: Time, duration: Time): (Rows, Option<UseCaseError>) {
    if id !in rows then (rows, Some(TaskNotFound))
    else
      var (r, err) := RenewResult(rows[id], station, now, duration);
      if err.Some? then (rows, Some(Refused(err.value))) else (rows[id := r], None)
  }

  function CompleteStep(rows: Rows, id: TaskId, station: StationId, now: Time): (Rows, Option<UseCaseError>) {
    if id !in rows then (rows, Some(TaskNotFound))
    else
      var (r, err) := CompleteResult(rows[id], station, now);
      if err.Some? then (rows, Some(Refused(err.value))) else (rows[id := r], None)
  }

  function DueIds(rows: Rows, now: Time): set<TaskId> {
    set id | id in rows && LeaseDue(rows[id], now)
  }

  function SweepStep(rows: Rows, now: Time): Rows {
    map id | id in rows :: Freed(rows[id], now)
  }

  /** A task a station with these capabilities could claim right now. */
  predicate Fits(r: Row, taskType: TaskType, caps: set<Capability>, now: Time) {
    r.fixed.taskType == taskType && IsAvailable(r, now) && r.fixed.required <= caps
  }

  /** What ClaimNext run alone may pick: a fitting task of least CPT, or nothing when nothing fits. */
  predicate MayPick(rows: Rows, taskType: TaskType, caps: set<Capability>, now: Time, picked: Option<TaskId>) {
    match picked
    case None => forall id :: id in rows ==> !Fits(rows[id], taskType, caps, now)
    case Some(id) =>
      && id in rows && Fits(rows[id], taskType, caps, now)
      && forall x :: x in rows && Fits(rows[x], taskType, caps, now) ==> rows[id].fixed.cpt <= rows[x].fixed.cpt
  }

  /** A pick is always possible: ClaimNext never has to fail while something fits. */
  lemma SomePickExists(rows: Rows, taskType: TaskType, caps: set<Capability>, now: Time) returns (picked: Option<TaskId>)
    ensures MayPick(rows, taskType, caps, now, picked)
  {
    var fitting := set id | id in rows && Fits(rows[id], taskType, caps, now);
    if fitting == {} {
      picked := None;
      assert forall id :: id in rows && Fits(rows[id], taskType, caps, now) ==> id in fitting;
    } else {
      var least := LeastCPT(rows, fitting);
      picked := Some(least);
    }
  }

  lemma LeastCPT(rows: Rows, ids: set<TaskId>) returns (least: TaskId)
    requires ids != {} && forall id :: id in ids ==> id in rows
    ensures least in ids && forall id :: id in ids ==> rows[least].fixed.cpt <= rows[id].fixed.cpt
    decreases ids
  {
    least :| least in ids;
    var first, rest := least, ids - {least};
    assert forall id :: id in ids ==> id == first || id in rest;
    if rest != {} {
      var other := LeastCPT(rows, rest);
      if rows[other].fixed.cpt < rows[first].fixed.cpt {
        least := other;
      }
    }
  }

  // ---- The calls themselves ----

  class TaskService {
    const repo: TaskRepo
    var events: seq<Event>

    constructor (repo: TaskRepo)
      ensures this.repo == repo && events == []
    {
      this.repo := repo;
      events := [];
    }

    /** A save and its event in one scope: what each call does once it has decided. */
    method SaveAndPublish(t: Task, e: Event, fate: Fate) returns (ok: bool)
      requires repo.Valid()
      modifies repo, this`events
      ensures repo.Valid() && ok == (fate == Commits)
      ensures repo.tasks == if Keeps(fate) then old(repo.tasks)[t.fixed.id := t.View()] else old(repo.tasks)
      ensures events == if Announces(fate) then old(events) + [e] else old(events)
    {
      if fate == RollsBack {
        return false;
      }
      repo.Save(t);
      if fate == SavedOnly {
        return false;
      }
      events := events + [e];
      return fate == Commits;
    }

    /** Puts a new task in the pool. */
    method CreateTask(fixed: Fixed, now: Time, fate: Fate) returns (r: Result<Task, UseCaseError>)
      requires repo.Valid()
      modifies repo, this`events
      ensures repo.Valid()
      ensures if fate == Commits then r.Ok? && fresh(r.value) && r.value.View() == NewRow(fixed) else r == Err(ScopeFailed)
      ensures repo.tasks == if Keeps(fate) then old(repo.tasks)[fixed.id := NewRow(fixed)] else old(repo.tasks)
      ensures events == if Announces(fate) then old(events) + [TaskCreated(fixed.id, now)] else old(events)
    {
      var t := new Task.New(fixed);
      var ok := SaveAndPublish(t, TaskCreated(fixed.id, now), fate);
      return if ok then Ok(t) else Err(ScopeFailed);
    }

    /**
     persistClaim: the compare-and-set, and the event only for a win. A lost one has no event to fail; its scope may
     still fail to commit.
     */
    method PersistClaim(t: Task, station: StationId, now: Time, fate: Fate) returns (won: bool, ok: bool)
      requires repo.Valid()
      modifies repo, this`events
      ensures repo.Valid()
      ensures repo.tasks == if Keeps(fate) then SaveClaimResult(old(repo.tasks), t.View(), now).0 else old(repo.tasks)
      ensures fate != RollsBack ==> won == SaveClaimResult(old(repo.tasks), t.View(), now).1
      ensures ok <==> fate == Commits || (fate == SavedOnly && !won)
      ensures events == if Announces(fate) && won then old(events) + [TaskClaimed(t.fixed.id, station, now)] else old(events)
    {
      if fate == RollsBack {
        return false, false;
      }
      won := repo.SaveClaim(t, now);
      if fate == SavedOnly {
        return won, !won;
      }
      if won {
        events := events + [TaskClaimed(t.fixed.id, station, now)];
      }
      return won, fate == Commits;
    }

    /**
     PULL dispatch. `capabilities` is what the station repository gives for the calling station: an error, nothing
     for an unknown station, or its capabilities. Run alone the call enters at most one scope, that of the first
     candidate the station satisfies, and `fate` is how it ends. A call that finds nothing, or whose scope rolls
     back, leaves the store and the events alone.
     */
    method ClaimNext(
      station: StationId, capabilities: Result<Option<set<Capability>>, ()>, taskType: TaskType, now: Time, leaseDuration: Time,
      listFails: bool, fate: Fate) returns (r: Result<Task, UseCaseError>, ghost picked: Option<TaskId>)
      requires repo.Valid()
      modifies repo, this`events
      ensures repo.Valid()
      ensures capabilities.Err? ==> r == Err(ReadFailed) && picked == None
      ensures capabilities == Ok(None) ==> r == Err(StationNotFound) && picked == None
      ensures capabilities.Ok? && capabilities.value.Some? ==>
                if listFails then r == Err(ReadFailed) && picked == None
                else
                  && MayPick(old(repo.tasks), taskType, capabilities.value.value, now, picked)
                  && (r.Ok? <==> picked.Some? && fate == Commits)
                  && (r.Err? ==> r == Err(if picked.None? then NoClaimableTask else ScopeFailed))
      ensures picked.None? || fate == RollsBack ==> repo.tasks == old(repo.tasks) && events == old(events)
      ensures picked.Some? && fate != RollsBack ==>
                && WasClaimed(old(repo.tasks), repo.tasks, picked.value, station, now,
                              if leaseDuration > 0 then leaseDuration else 300_000_000_000)
                && events == (if Announces(fate) then old(events) + [TaskClaimed(picked.value, station, now)] else old(events))
      ensures r.Ok? ==> picked == Some(r.value.fixed.id) && picked.value in repo.tasks && r.value.View() == repo.tasks[picked.value]
    {
      picked := None;
      if capabilities.Err? {
        return Err(ReadFailed), None;
      }
      if capabilities.value.None? {
        return Err(StationNotFound), None;
      }
      if listFails {
        return Err(ReadFailed), None;
      }
      var caps := capabilities.value.value;
      var candidates := repo.FindClaimableByType(taskType, now);
      ghost var rows, cands := repo.tasks, Views(candidates);
      assert forall j :: 0 <= j < |candidates| ==> candidates[j].View() == cands[j];
      var first, ok := ClaimFirst(candidates, station, caps, now, EffectiveDuration(leaseDuration), fate);
      if first.None? {
        NoFitIsNoPick(rows, taskType, caps, now, cands);
        return Err(NoClaimableTask), None;
      }
      FirstFitIsPick(rows, taskType, caps, now, cands, first.value);
      picked := Some(candidates[first.value].fixed.id);
      r := if ok then Ok(candidates[first.value]) else Err(ScopeFailed);
    }

    /**
     The candidate loop. Run alone, every candidate still shows its stored row, so the loop tries to persist the
     first one the station satisfies, and that compare-and-set wins.
     */
    method ClaimFirst(candidates: seq<Task>, station: StationId, caps: set<Capability>, now: Time, duration: Time, fate: Fate)
      returns (first: Option<nat>, ok: bool)
      requires repo.Valid() && DistinctIds(candidates) && CopiesOf(repo.tasks, candidates)
      requires forall j :: 0 <= j < |candidates| ==> IsAvailable(candidates[j].View(), now)
      modifies repo, this`events, candidates
      ensures repo.Valid()
      ensures first.None? ==> forall j :: 0 <= j < |candidates| ==> !(candidates[j].fixed.required <= caps)
      ensures first.None? || fate == RollsBack ==> repo.tasks == old(repo.tasks) && events == old(events)
      ensures first.Some? ==>
                var i := first.value;
                && i < |candidates| && candidates[i].fixed.required <= caps && ok == (fate == Commits)
                && (forall j :: 0 <= j < i ==> !(candidates[j].fixed.required <= caps))
                && candidates[i].View() == AfterClaim(Freed(old(candidates[i].View()), now), station, now, duration)
                && (fate != RollsBack ==> repo.tasks == old(repo.tasks)[candidates[i].fixed.id := candidates[i].View()])
                && events == (if Announces(fate) then old(events) + [TaskClaimed(candidates[i].fixed.id, station, now)] else old(events))
    {
      var i := 0;
      while i < |candidates|
        invariant 0 <= i <= |candidates|
        invariant repo.Valid() && repo.tasks == old(repo.tasks) && events == old(events)
        invariant forall j :: i <= j < |candidates| ==> candidates[j].View() == old(candidates[j].View())
        invariant forall j :: 0 <= j < i ==> !(candidates[j].fixed.required <= caps)
      {
        var t := candidates[i];
        assert t.View() == repo.tasks[t.fixed.id];
        var refused := t.Claim(station, caps, now, duration);
        if refused.None? {
          var won;
          won, ok := PersistClaim(t, station, now, fate);
          if !ok || won {
            return Some(i), ok;
          }
        }
        i := i + 1;
      }
      return None, true;
    }

    /** Extends the caller's lease with a plain save; a refusal changes only a private copy. */
    method RenewLease(id: TaskId, station: StationId, now: Time, leaseDuration: Time, readFails: bool, fate: Fate)
      returns (err: Option<UseCaseError>)
      requires repo.Valid()
      modifies repo
      ensures repo.Valid()
      ensures var (rows, refused) := RenewStep(old(repo.tasks), id, station, now,
                                               if leaseDuration > 0 then leaseDuration else 300_000_000_000);
              && repo.tasks == (if !readFails && Keeps(fate) then rows else old(repo.tasks))
              && err == if readFails then Some(ReadFailed) else if refused.Some? then refused
                        else if fate == Commits then None else Some(ScopeFailed)
      ensures err.None? ==> id in repo.tasks
                            && repo.tasks[id].lease == Some(Lease(station, now + if leaseDuration > 0 then leaseDuration else 300_000_000_000))
    {
      if readFails {
        return Some(ReadFailed);
      }
      var found := repo.FindById(id);
      if found.None? {
        return Some(TaskNotFound);
      }
      var t := found.value;
      assert t.fixed.id == id;
      var refused := t.RenewLease(station, now, EffectiveDuration(leaseDuration));
      if refused.Some? {
        return Some(Refused(refused.value));
      }
      if Keeps(fate) {
        repo.Save(t);
      }
      return if fate == Commits then None else Some(ScopeFailed);
    }

    method CompleteTask(id: TaskId, station: StationId, now: Time, readFails: bool, fate: Fate) returns (err: Option<UseCaseError>)
      requires repo.Valid()
      modifies repo, this`events
      ensures repo.Valid()
      ensures var (rows, refused) := CompleteStep(old(repo.tasks), id, station, now);
              && repo.tasks == (if !readFails && Keeps(fate) then rows else old(repo.tasks))
              && events == (if !readFails && refused.None? && Announces(fate) then old(events) + [TaskCompleted(id, station, now)]
                            else old(events))
              && err == if readFails then Some(ReadFailed) else if refused.Some? then refused
                        else if fate == Commits then None else Some(ScopeFailed)
    {
      if readFails {
        return Some(ReadFailed);
      }
      var found := repo.FindById(id);
      if found.None? {
        return Some(TaskNotFound);
      }
      var t := found.value;
      assert t.fixed.id == id;
      var refused := t.Complete(station, now);
      if refused.Some? {
        return Some(Refused(refused.value));
      }
      var ok := SaveAndPublish(t, TaskCompleted(id, station, now), fate);
      return if ok then None else Some(ScopeFailed);
    }

    /**
     The i-th claimed task of the sweep, freed and saved in its own scope when its lease is due. `rows` and `told` are the
     store and the events as the sweep found them.
     */
    method FreeOne(claimed: seq<Task>, ghost views: seq<Row>, i: nat, now: Time, fate: Fate, ghost rows: Rows, ghost told: seq<Event>)
      returns (due: bool, ok: bool)
      requires repo.Valid() && DistinctIds(claimed) && i < |claimed| && Shows(claimed, views, i)
      requires repo.tasks == SweptTo(rows, now, views, i) && events == told + RaisedTo(views, now, i)
      modifies claimed[i], repo, this`events
      ensures repo.Valid() && Shows(claimed, views, i + 1)
      ensures due == LeaseDue(views[i], now) && ok == (due ==> fate == Commits)
      ensures repo.tasks == SweptTo(rows, now, views, if due && !Keeps(fate) then i else i + 1)
      ensures events == told + RaisedTo(views, now, if due && !Announces(fate) then i else i + 1)
    {
      var t := claimed[i];
      assert t.View() == views[i];
      assert forall j :: i < j < |claimed| ==> claimed[j] != t && claimed[j].View() == views[j];
      due := t.ExpireLeaseIfDue(now);
      ok := true;
      if due {
        ok := SaveAndPublish(t, LeaseExpired(t.fixed.id, now), fate);
      }
    }

    /**
     The lease sweep, each due task in its own scope, the i-th listed task's ending as `fates(i)`. Without an error
     every due lease has been given up, each with one LeaseExpired event, and nothing else moved. An error comes from
     the first scope that fails: some due tasks were freed and counted, one more may have been, and the rest stay.
     */
    method ExpireLeases(now: Time, readFails: bool, fates: nat -> Fate)
      returns (freed: nat, err: Option<UseCaseError>, ghost raised: seq<Event>)
      requires repo.Valid()
      modifies repo, this`events
      ensures repo.Valid() && events == old(events) + raised
      ensures readFails ==> err == Some(ReadFailed) && freed == 0 && repo.tasks == old(repo.tasks) && raised == []
      ensures !readFails && (forall i: nat :: fates(i) == Commits) ==> err.None?
      ensures err.None? ==> SweptAll(old(repo.tasks), repo.tasks, now, freed, raised)
      ensures !readFails && err.Some? ==> err == Some(ScopeFailed) && SweptSome(old(repo.tasks), repo.tasks, now, freed, raised)
    {
      raised := [];
      if readFails {
        return 0, Some(ReadFailed), [];
      }
      var claimed := repo.FindAllClaimed();
      ghost var rows, views := repo.tasks, Views(claimed);
      ViewsShowRows(rows, claimed);
      ghost var n, kept, told;
      freed, err, n, kept, told := SweepAll(claimed, views, now, fates);
      raised := RaisedTo(views, now, told);
      assert ShowsRows(rows, views);
      if err.None? {
        SweepCompletes(rows, now, views);
      } else {
        StopsAt(rows, now, views, fates, n, kept, told);
      }
    }

    /** The sweep loop over the claimed copies: `n` were dealt with, `kept` of them saved and `told` announced. */
    method SweepAll(claimed: seq<Task>, ghost views: seq<Row>, now: Time, fates: nat -> Fate)
      returns (freed: nat, err: Option<UseCaseError>, ghost n: nat, ghost kept: nat, ghost told: nat)
      requires repo.Valid() && DistinctIds(claimed) && Shows(claimed, views, 0)
      modifies repo, this`events, claimed
      ensures repo.Valid()
      ensures n <= |views| && kept <= |views| && told <= |views|
      ensures repo.tasks == SweptTo(old(repo.tasks), now, views, kept)
      ensures events == old(events) + RaisedTo(views, now, told)
      ensures freed == |RaisedTo(views, now, n)|
      ensures err.None? ==> n == kept == told == |views|
      ensures err.Some? ==> StopsHere(views, now, fates, n, kept, told) && err == Some(ScopeFailed)
    {
      ghost var rows, before := repo.tasks, events;
      freed, n, kept, told := 0, 0, 0, 0;
      var i := 0;
      while i < |claimed|
        invariant 0 <= i <= |claimed|
        invariant repo.Valid() && repo.tasks == SweptTo(rows, now, views, i)
        invariant Shows(claimed, views, i)
        invariant events == before + RaisedTo(views, now, i)
        invariant freed == |RaisedTo(views, now, i)|
      {
        var due, ok := FreeOne(claimed, views, i, now, fates(i), rows, before);
        if !ok {
          err, n := Some(ScopeFailed), i;
          kept, told := if Keeps(fates(i)) then i + 1 else i, if Announces(fates(i)) then i + 1 else i;
          return;
        }
        freed := if due then freed + 1 else freed;
        i := i + 1;
      }
      err, n, kept, told := None, i, i, i;
    }
  }

  /** From the i-th on, the listed tasks are as they were when listed. */
  ghost predicate Shows(claimed: seq<Task>, views: seq<Row>, i: nat)
    reads claimed
  {
    |views| == |claimed| && forall j :: i <= j < |claimed| ==> claimed[j].View() == views[j]
  }

  /** The sweep stops at the n-th task, a due one: its scope fails, after saving and announcing it as its fate says. */
  predicate StopsHere(views: seq<Row>, now: Time, fates: nat -> Fate, n: nat, kept: nat, told: nat) {
    && n < |views| && LeaseDue(views[n], now) && fates(n) != Commits
    && kept == (if Keeps(fates(n)) then n + 1 else n)
    && told == (if Announces(fates(n)) then n + 1 else n)
  }

  /** The row was claimed, and nothing else changed. */
  predicate WasClaimed(before: Rows, after: Rows, id: TaskId, station: StationId, now: Time, duration: Time) {
    id in before && after == before[id := AfterClaim(Freed(before[id], now), station, now, duration)]
  }

  /** The rows with just these tasks' leases given up. */
  function SweptOnly(rows: Rows, ids: set<TaskId>, now: Time): Rows {
    map id | id in rows :: if id in ids then Freed(rows[id], now) else rows[id]
  }

  /** A sweep without an error: every due lease given up, announced once and counted, and nothing else moved. */
  ghost predicate SweptAll(before: Rows, after: Rows, now: Time, freed: nat, raised: seq<Event>) {
    after == SweepStep(before, now) && freed == |DueIds(before, now)| && OneExpiryEach(raised, DueIds(before, now), now)
  }

  /** A sweep that stopped at some task's scope, the tasks before it freed and counted. */
  ghost predicate SweptSome(before: Rows, after: Rows, now: Time, freed: nat, raised: seq<Event>) {
    exists done, hit, fate :: StoppedAt(before, after, now, done, hit, fate, raised) && freed == |done|
  }

  /** The tasks `done` were freed and announced, and the scope of `hit` ended as `fate` says. */
  ghost predicate StoppedAt(before: Rows, after: Rows, now: Time, done: set<TaskId>, hit: TaskId, fate: Fate, raised: seq<Event>) {
    && fate != Commits && done < DueIds(before, now) && hit in DueIds(before, now) - done
    && after == SweptOnly(before, if Keeps(fate) then done + {hit} else done, now)
    && OneExpiryEach(raised, if Announces(fate) then done + {hit} else done, now)
  }

  /** The rows once the first n listed tasks have been through the sweep. */
  function SweptTo(rows: Rows, now: Time, views: seq<Row>, n: nat): Rows
    requires n <= |views|
  {
    if n == 0 then rows
    else
      var before, t := SweptTo(rows, now, views, n - 1), views[n - 1];
      if LeaseDue(t, now) then before[t.fixed.id := Freed(t, now)] else before
  }

  /** The events they have raised. */
  function RaisedTo(views: seq<Row>, now: Time, n: nat): seq<Event>
    requires n <= |views|
  {
    if n == 0 then []
    else
      var before, t := RaisedTo(views, now, n - 1), views[n - 1];
      if LeaseDue(t, now) then before + [LeaseExpired(t.fixed.id, now)] else before
  }

  /** One LeaseExpired for each id, and nothing more. */
  ghost predicate OneExpiryEach(raised: seq<Event>, ids: set<TaskId>, now: Time) {
    && |raised| == |ids|
    && (forall e :: e in raised <==> e.LeaseExpired? && e.at == now && e.id in ids)
  }

  /** The ids of the first n listed tasks whose lease is due. */
  function DueTo(views: seq<Row>, now: Time, n: nat): set<TaskId>
    requires n <= |views|
  {
    set j | 0 <= j < n && LeaseDue(views[j], now) :: views[j].fixed.id
  }

  lemma DueToNext(views: seq<Row>, now: Time, n: nat)
    requires n < |views|
    ensures DueTo(views, now, n + 1) == if LeaseDue(views[n], now) then DueTo(views, now, n) + {views[n].fixed.id} else DueTo(views, now, n)
  {
  }

  /** Each listed task shows its stored row, and no task is listed twice. */
  predicate ShowsRows(rows: Rows, views: seq<Row>) {
    && (forall j :: 0 <= j < |views| ==> views[j].fixed.id in rows && views[j] == rows[views[j].fixed.id])
    && (forall a, b :: 0 <= a < b < |views| ==> views[a].fixed.id != views[b].fixed.id)
  }

  /** After the first n tasks, exactly the due ones among them have been freed. */
  lemma {:induction false} SweptToIs(rows: Rows, now: Time, views: seq<Row>, n: nat)
    requires ShowsRows(rows, views) && n <= |views|
    ensures SweptTo(rows, now, views, n) == SweptOnly(rows, DueTo(views, now, n), now)
  {
    if n > 0 {
      SweptToIs(rows, now, views, n - 1);
      DueToNext(views, now, n - 1);
    }
  }

  lemma OneMoreExpiry(raised: seq<Event>, ids: set<TaskId>, id: TaskId, now: Time)
    requires OneExpiryEach(raised, ids, now) && id !in ids
    ensures OneExpiryEach(raised + [LeaseExpired(id, now)], ids + {id}, now)
  {
  }

  lemma NotDueBefore(rows: Rows, now: Time, views: seq<Row>, n: nat)
    requires ShowsRows(rows, views) && n < |views|
    ensures views[n].fixed.id !in DueTo(views, now, n)
  {
  }

  /** Each due task among them has raised one event. */
  lemma {:induction false} RaisedToIs(rows: Rows, now: Time, views: seq<Row>, n: nat)
    requires ShowsRows(rows, views) && n <= |views|
    ensures OneExpiryEach(RaisedTo(views, now, n), DueTo(views, now, n), now)
  {
    if n > 0 {
      RaisedToIs(rows, now, views, n - 1);
      DueToNext(views, now, n - 1);
      var before, id := DueTo(views, now, n - 1), views[n - 1].fixed.id;
      NotDueBefore(rows, now, views, n - 1);
      OneMoreExpiry(RaisedTo(views, now, n - 1), before, id, now);
    }
  }

  lemma SweepCompletes(rows: Rows, now: Time, views: seq<Row>)
    requires ShowsRows(rows, views)
    requires forall id :: id in rows && rows[id].status == Claimed ==> exists j :: 0 <= j < |views| && views[j].fixed.id == id
    requires forall id :: id in rows ==> rows[id].fixed.id == id
    ensures SweptAll(rows, SweptTo(rows, now, views, |views|), now, |RaisedTo(views, now, |views|)|, RaisedTo(views, now, |views|))
  {
    SweptToIs(rows, now, views, |views|);
    RaisedToIs(rows, now, views, |views|);
    var due := DueTo(views, now, |views|);
    forall id | id in DueIds(rows, now) ensures id in due {
      var j :| 0 <= j < |views| && views[j].fixed.id == id;
    }
    assert due == DueIds(rows, now);
  }

  /** The due tasks before the n-th, and with it. */
  lemma DueBefore(rows: Rows, now: Time, views: seq<Row>, n: nat)
    requires ShowsRows(rows, views) && n < |views| && LeaseDue(views[n], now)
    ensures var done, hit := DueTo(views, now, n), views[n].fixed.id;
            done <= DueIds(rows, now) && hit in DueIds(rows, now) && hit !in done && DueTo(views, now, n + 1) == done + {hit}
  {
    DueToNext(views, now, n);
  }

  lemma StopsAt(rows: Rows, now: Time, views: seq<Row>, fates: nat -> Fate, n: nat, kept: nat, told: nat)
    requires ShowsRows(rows, views) && StopsHere(views, now, fates, n, kept, told)
    ensures SweptSome(rows, SweptTo(rows, now, views, kept), now, |RaisedTo(views, now, n)|, RaisedTo(views, now, told))
  {
    DueBefore(rows, now, views, n);
    SweptToIs(rows, now, views, kept);
    RaisedToIs(rows, now, views, told);
    RaisedToIs(rows, now, views, n);
    assert StoppedAt(rows, SweptTo(rows, now, views, kept), now, DueTo(views, now, n), views[n].fixed.id, fates(n), RaisedTo(views, now, told));
  }

  lemma FirstFitIsPick(rows: Rows, taskType: TaskType, caps: set<Capability>, now: Time, cands: seq<Row>, i: nat)
    requires IsCandidateList(rows, taskType, now, cands)
    requires i < |cands| && cands[i].fixed.required <= caps
    requires forall j :: 0 <= j < i ==> !(cands[j].fixed.required <= caps)
    ensures MayPick(rows, taskType, caps, now, Some(cands[i].fixed.id))
  {
  }

  lemma NoFitIsNoPick(rows: Rows, taskType: TaskType, caps: set<Capability>, now: Time, cands: seq<Row>)
    requires IsCandidateList(rows, taskType, now, cands)
    requires forall j :: 0 <= j < |cands| ==> !(cands[j].fixed.required <= caps)
    ensures MayPick(rows, taskType, caps, now, None)
  {
  }
}

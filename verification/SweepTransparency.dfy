/**
 The lease sweep is unobservable to claiming: in any run of atomic create, claim, renew and complete calls under a
 clock that never runs back, ExpireLeases can be put in or taken out anywhere without changing any call's result.
 Every call re-evaluates a due lease for itself, so the sweep only writes down early what they would conclude.
 */
module SweepTransparency {
  import opened Prelude
  import opened Tasks
  import opened TaskStore
  import opened TaskUseCases

  /** A call together with the result it reported. */
  datatype Op =
    | CreateOp(fixed: Fixed)
    | ClaimOp(station: StationId, caps: set<Capability>, taskType: TaskType, duration: Time, picked: Option<TaskId>)
    | RenewOp(id: TaskId, station: StationId, duration: Time, err: Option<UseCaseError>)
    | CompleteOp(id: TaskId, station: StationId, err: Option<UseCaseError>)
    | SweepOp

  datatype Timed = Timed(at: Time, op: Op)

  /** The result is one the call may report on this store. */
  predicate Possible(rows: Rows, t: Timed) {
    match t.op
    case CreateOp(fixed) => fixed.id !in rows
    case ClaimOp(_, caps, taskType, _, picked) => MayPick(rows, taskType, caps, t.at, picked)
    case RenewOp(id, station, duration, err) => err == RenewStep(rows, id, station, t.at, EffectiveDuration(duration)).1
    case CompleteOp(id, station, err) => err == CompleteStep(rows, id, station, t.at).1
    case SweepOp => true
  }

  function Outcome(rows: Rows, t: Timed): Rows {
    match t.op
    case CreateOp(fixed) => rows[fixed.id := NewRow(fixed)]
    case ClaimOp(station, _, _, duration, picked) =>
      if picked.Some? && picked.value in rows then
        rows[picked.value := AfterClaim(Freed(rows[picked.value], t.at), station, t.at, EffectiveDuration(duration))]
      else rows
    case RenewOp(id, station, duration, _) => RenewStep(rows, id, station, t.at, EffectiveDuration(duration)).0
    case CompleteOp(id, station, _) => CompleteStep(rows, id, station, t.at).0
    case SweepOp => SweepStep(rows, t.at)
  }

  /** The run reports exactly these results, one after the other. */
  predicate Accepts(rows: Rows, run: seq<Timed>)
    decreases |run|
  {
    run == [] || (Possible(rows, run[0]) && Accepts(Outcome(rows, run[0]), run[1..]))
  }

  function Final(rows: Rows, run: seq<Timed>): Rows
    decreases |run|
  {
    if run == [] then rows else Final(Outcome(rows, run[0]), run[1..])
  }

  function WithoutSweeps(run: seq<Timed>): seq<Timed>
    decreases |run|
  {
    if run == [] then []
    else if run[0].op.SweepOp? then WithoutSweeps(run[1..])
    else [run[0]] + WithoutSweeps(run[1..])
  }

  /** The clock never runs back, from `start` on. */
  predicate Clocked(start: Time, run: seq<Timed>)
    decreases |run|
  {
    run == [] || (start <= run[0].at && Clocked(run[0].at, run[1..]))
  }

  function EndTime(start: Time, run: seq<Timed>): Time
    decreases |run|
  {
    if run == [] then start else EndTime(run[0].at, run[1..])
  }

  /** The same store, up to leases that have run out by now. */
  ghost predicate SameBy(now: Time, a: Rows, b: Rows) {
    SweepStep(a, now) == SweepStep(b, now)
  }

  lemma SameRow(now: Time, a: Rows, b: Rows, id: TaskId)
    requires SameBy(now, a, b)
    ensures id in a <==> id in b
    ensures id in a ==> Freed(a[id], now) == Freed(b[id], now)
  {
    assert id in SweepStep(a, now) <==> id in SweepStep(b, now);
    if id in a {
      assert SweepStep(a, now)[id] == SweepStep(b, now)[id];
    }
  }

  /** A lease that has run out stays run out. */
  lemma SameLater(now: Time, later: Time, a: Rows, b: Rows)
    requires SameBy(now, a, b) && now <= later
    ensures SameBy(later, a, b)
  {
  }

  /** Sweeping changes nothing that is not already due. */
  lemma SweepIsSame(now: Time, a: Rows)
    ensures SameBy(now, SweepStep(a, now), a)
  {
    assert SweepStep(SweepStep(a, now), now) == SweepStep(a, now);
  }

  /** Whether a task fits does not depend on a due lease having been swept. */
  lemma SameFit(now: Time, a: Rows, b: Rows, taskType: TaskType, caps: set<Capability>, id: TaskId)
    requires SameBy(now, a, b) && id in a
    ensures id in b && a[id].fixed == b[id].fixed
    ensures Fits(a[id], taskType, caps, now) <==> Fits(b[id], taskType, caps, now)
  {
    SameRow(now, a, b, id);
  }

  lemma SamePick(now: Time, a: Rows, b: Rows, taskType: TaskType, caps: set<Capability>, picked: Option<TaskId>)
    requires SameBy(now, a, b) && MayPick(a, taskType, caps, now, picked)
    ensures MayPick(b, taskType, caps, now, picked)
  {
    if picked.Some? {
      SameFit(now, a, b, taskType, caps, picked.value);
    }
    forall x | x in b ensures x in a && a[x].fixed == b[x].fixed && (Fits(a[x], taskType, caps, now) <==> Fits(b[x], taskType, caps, now)) {
      SameFit(now, b, a, taskType, caps, x);
    }
  }

  /** One call: the same results are possible on both stores, and the same result leaves them the same. */
  lemma SameStep(a: Rows, b: Rows, t: Timed)
    requires SameBy(t.at, a, b) && Sound(a) && Sound(b)
    ensures Possible(a, t) <==> Possible(b, t)
    ensures Possible(a, t) ==> SameBy(t.at, Outcome(a, t), Outcome(b, t)) && Sound(Outcome(a, t)) && Sound(Outcome(b, t))
  {
    match t.op {
    case ClaimOp(_, caps, taskType, _, picked) =>
      if MayPick(a, taskType, caps, t.at, picked) {
        SamePick(t.at, a, b, taskType, caps, picked);
      }
      if MayPick(b, taskType, caps, t.at, picked) {
        SamePick(t.at, b, a, taskType, caps, picked);
      }
    case RenewOp(id, _, _, _) => SameRow(t.at, a, b, id);
    case CompleteOp(id, _, _) => SameRow(t.at, a, b, id);
    case CreateOp(fixed) => SameRow(t.at, a, b, fixed.id);
    case SweepOp =>
    }
    if Possible(a, t) {
      SameOutcome(a, b, t);
    }
  }

  lemma SameUpdate(now: Time, a: Rows, b: Rows, id: TaskId, ra: Row, rb: Row)
    requires SameBy(now, a, b) && Freed(ra, now) == Freed(rb, now)
    ensures SameBy(now, a[id := ra], b[id := rb])
  {
    assert SweepStep(a[id := ra], now) == SweepStep(a, now)[id := Freed(ra, now)];
    assert SweepStep(b[id := rb], now) == SweepStep(b, now)[id := Freed(rb, now)];
  }

  lemma SameOutcome(a: Rows, b: Rows, t: Timed)
    requires SameBy(t.at, a, b) && Sound(a) && Sound(b) && Possible(a, t) && Possible(b, t)
    ensures SameBy(t.at, Outcome(a, t), Outcome(b, t)) && Sound(Outcome(a, t)) && Sound(Outcome(b, t))
  {
    match t.op
    case CreateOp(fixed) => SameUpdate(t.at, a, b, fixed.id, NewRow(fixed), NewRow(fixed));
    case ClaimOp(_, _, _, _, picked) =>
      if picked.Some? {
        SameRow(t.at, a, b, picked.value);
        SameUpdate(t.at, a, b, picked.value, Outcome(a, t)[picked.value], Outcome(b, t)[picked.value]);
      }
    case RenewOp(id, _, _, err) =>
      if err.None? {
        SameRow(t.at, a, b, id);
        SameUpdate(t.at, a, b, id, Outcome(a, t)[id], Outcome(b, t)[id]);
      }
    case CompleteOp(id, _, err) =>
      if err.None? {
        SameRow(t.at, a, b, id);
        SameUpdate(t.at, a, b, id, Outcome(a, t)[id], Outcome(b, t)[id]);
      }
    case SweepOp =>
      SweepIsSame(t.at, a);
      SweepIsSame(t.at, b);
  }

  /**
   Taking every sweep out of a run: the run without sweeps reports the very same results, on any store that is the
   same up to due leases, and both end in the same store up to leases that have run out.
   */
  lemma {:induction false} SweepsAreUnobservable(start: Time, a: Rows, b: Rows, run: seq<Timed>)
    requires Sound(a) && Sound(b) && SameBy(start, a, b) && Clocked(start, run)
    ensures Accepts(a, run) <==> Accepts(b, WithoutSweeps(run))
    ensures Accepts(a, run) ==> SameBy(EndTime(start, run), Final(a, run), Final(b, WithoutSweeps(run)))
    decreases |run|
  {
    if run != [] {
      var t := run[0];
      SameLater(start, t.at, a, b);
      if t.op.SweepOp? {
        SweepIsSame(t.at, a);
        SweepsAreUnobservable(t.at, Outcome(a, t), b, run[1..]);
      } else {
        SameStep(a, b, t);
        var rest := WithoutSweeps(run[1..]);
        assert WithoutSweeps(run) == [t] + rest && ([t] + rest)[1..] == rest;
        if Possible(a, t) {
          SweepsAreUnobservable(t.at, Outcome(a, t), Outcome(b, t), run[1..]);
        }
      }
    }
  }

  /** Two runs that differ only in where they sweep report the same results or fail to together. */
  lemma SweepPlacementIsIrrelevant(start: Time, rows: Rows, run1: seq<Timed>, run2: seq<Timed>)
    requires Sound(rows) && Clocked(start, run1) && Clocked(start, run2)
    requires WithoutSweeps(run1) == WithoutSweeps(run2)
    ensures Accepts(rows, run1) <==> Accepts(rows, run2)
    ensures Accepts(rows, run1) ==>
              var end := if EndTime(start, run1) < EndTime(start, run2) then EndTime(start, run2) else EndTime(start, run1);
              SameBy(end, Final(rows, run1), Final(rows, run2))
  {
    SweepsAreUnobservable(start, rows, rows, run1);
    SweepsAreUnobservable(start, rows, rows, run2);
    if Accepts(rows, run1) {
      var bare := Final(rows, WithoutSweeps(run1));
      var end := if EndTime(start, run1) < EndTime(start, run2) then EndTime(start, run2) else EndTime(start, run1);
      SameLater(EndTime(start, run1), end, Final(rows, run1), bare);
      SameLater(EndTime(start, run2), end, Final(rows, run2), bare);
    }
  }
}

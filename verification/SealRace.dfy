/**
 Racing SealPackage calls (internal/application/usecases/seal_package.go, migrations/0011_package_task_id.up.sql): any
 number of calls, each a look for an existing package and, later, a save, interleaved.

 The Postgres store has a unique index on the task id, the memory store does not. Package ids are minted fresh per call.
 */
module SealingRace {
  import opened Prelude
  import opened Packages
  import opened Sealing

  type CallId = nat

  datatype Phase = Started | Ready(row: Row) | Finished(result: Result<Row, SealError>)

  datatype InFlight = InFlight(call: Call, phase: Phase)

  datatype State = State(packages: PackageStore, calls: map<CallId, InFlight>)

  datatype Step =
    | Begin(c: CallId, call: Call)
    | LookFails(c: CallId)
    | Find(c: CallId, id: PackageId)     // an existing package is returned
    | Miss(c: CallId)                    // none found: everything up to the scope
    | Save(c: CallId)

  const Init: State := State(map[], map[])

  ghost predicate Enabled(s: State, step: Step) {
    match step
    case Begin(c, call) =>
      && c !in s.calls && call.newId !in s.packages
      && forall d :: d in s.calls ==> s.calls[d].call.newId != call.newId
    case LookFails(c) => c in s.calls && s.calls[c].phase.Started?
    case Find(c, id) => c in s.calls && s.calls[c].phase.Started? && IsPackageOf(s.packages, s.calls[c].call.task, id)
    case Miss(c) => c in s.calls && s.calls[c].phase.Started? && !HasPackage(s.packages, s.calls[c].call.task)
    case Save(c) => c in s.calls && s.calls[c].phase.Ready?
  }

  function Moved(s: State, c: CallId, phase: Phase): map<CallId, InFlight>
    requires c in s.calls
  {
    s.calls[c := s.calls[c].(phase := phase)]
  }

  ghost function After(s: State, step: Step, wired: bool, indexed: bool): State
    requires Enabled(s, step)
  {
    match step
    case Begin(c, call) => s.(calls := s.calls[c := InFlight(call, Started)])
    case LookFails(c) => s.(calls := Moved(s, c, Finished(Err(ReadFailed))))
    case Find(c, id) => s.(calls := Moved(s, c, Finished(Ok(s.packages[id]))))
    case Miss(c) =>
      var r := Prepared(wired, s.calls[c].call);
      if r.Err? then s.(calls := Moved(s, c, Finished(r)))
      else s.(calls := Moved(s, c, Ready(r.value)))
    case Save(c) =>
      var (packages, r) := Stored(s.packages, s.calls[c].phase.row, s.calls[c].call.scope, indexed);
      State(packages, Moved(s, c, Finished(r)))
  }

  /** One step; a step that is not enabled does nothing. */
  ghost function Do(s: State, step: Step, wired: bool, indexed: bool): State {
    if Enabled(s, step) then After(s, step, wired, indexed) else s
  }

  ghost function Run(steps: seq<Step>, wired: bool, indexed: bool): State {
    if steps == [] then Init else Do(Run(steps[..|steps| - 1], wired, indexed), steps[|steps| - 1], wired, indexed)
  }

  // ---- What every interleaving keeps ----

  ghost predicate IdsDiffer(s: State) {
    forall c, d :: c in s.calls && d in s.calls && c != d ==> s.calls[c].call.newId != s.calls[d].call.newId
  }

  /** The package the call will save or has been given is its task's, and what it was given is stored. */
  predicate CallHolds(packages: PackageStore, f: InFlight) {
    match f.phase
    case Started => f.call.newId !in packages
    case Ready(row) => row.id == f.call.newId && row.task == Some(f.call.task) && f.call.newId !in packages
    case Finished(Ok(row)) => row.task == Some(f.call.task) && row.id in packages && packages[row.id] == row
    case Finished(Err(_)) => true
  }

  predicate CallsHold(s: State) {
    forall c :: c in s.calls ==> CallHolds(s.packages, s.calls[c])
  }

  /** The call has stored its package. */
  predicate HasSaved(s: State, c: CallId) {
    c in s.calls && s.calls[c].call.newId in s.packages
  }

  /** The call went through its scope, and the scope did not roll back by itself. */
  predicate WentThrough(s: State, c: CallId) {
    c in s.calls && s.calls[c].phase.Finished? && s.calls[c].call.scope != RollsBack
  }

  predicate SaversHold(s: State) {
    forall c :: c in s.calls && HasSaved(s, c) ==>
      WentThrough(s, c) && s.packages[s.calls[c].call.newId].task == Some(s.calls[c].call.task)
  }

  ghost predicate SavedBySome(s: State, id: PackageId) {
    exists c :: c in s.calls && HasSaved(s, c) && s.calls[c].call.newId == id
  }

  /** Every package has its task and was saved by a call. */
  ghost predicate PackagesHold(s: State) {
    forall id :: id in s.packages ==> s.packages[id].id == id && s.packages[id].task.Some? && SavedBySome(s, id)
  }

  ghost predicate Inv(s: State, indexed: bool) {
    IdsDiffer(s) && CallsHold(s) && SaversHold(s) && PackagesHold(s) && (indexed ==> OnePerTask(s.packages))
  }

  lemma PreparedRow(wired: bool, call: Call)
    ensures Prepared(wired, call).Ok? ==> Prepared(wired, call).value.id == call.newId && Prepared(wired, call).value.task == Some(call.task)
  {
    if call.read.Read? && call.read.row.Some? {
      PackedFor(wired, call, call.read.row.value);
    }
  }

  /** Packages and calls stay, and packages stay as they are. */
  predicate Grown(s: State, s': State) {
    && (forall id :: id in s.packages ==> id in s'.packages && s'.packages[id] == s.packages[id])
    && (forall c :: c in s.calls ==> c in s'.calls && s'.calls[c].call == s.calls[c].call)
  }

  lemma SaveKeepsCalls(s: State, c: CallId, wired: bool, indexed: bool)
    requires Inv(s, indexed) && Enabled(s, Save(c))
    ensures var s' := After(s, Save(c), wired, indexed); CallsHold(s') && SaversHold(s') && Grown(s, s')
    ensures indexed ==> OnePerTask(After(s, Save(c), wired, indexed).packages)
  {
    assert CallHolds(s.packages, s.calls[c]);
    var s' := After(s, Save(c), wired, indexed);
    forall d | d in s'.calls ensures CallHolds(s'.packages, s'.calls[d]) {
      assert CallHolds(s.packages, s.calls[d]);
    }
  }

  lemma OtherStepKeepsCalls(s: State, step: Step, wired: bool, indexed: bool)
    requires Inv(s, indexed) && Enabled(s, step) && !step.Save?
    ensures var s' := After(s, step, wired, indexed); CallsHold(s') && SaversHold(s') && s'.packages == s.packages && Grown(s, s')
  {
    if step.Miss? {
      PreparedRow(wired, s.calls[step.c].call);
    }
    if !step.Begin? {
      assert CallHolds(s.packages, s.calls[step.c]);
    }
  }

  lemma StepKeepsPackages(s: State, step: Step, wired: bool, indexed: bool)
    requires Inv(s, indexed) && Enabled(s, step) && Grown(s, After(s, step, wired, indexed))
    ensures PackagesHold(After(s, step, wired, indexed))
  {
    var s' := After(s, step, wired, indexed);
    forall id | id in s'.packages ensures s'.packages[id].id == id && s'.packages[id].task.Some? && SavedBySome(s', id) {
      if id in s.packages {
        assert SavedBySome(s, id);
        var c :| c in s.calls && HasSaved(s, c) && s.calls[c].call.newId == id;
        assert HasSaved(s', c);
      } else {
        assert CallHolds(s.packages, s.calls[step.c]);
        assert HasSaved(s', step.c) && s'.calls[step.c].call.newId == id;
      }
    }
  }

  lemma StepKeepsInv(s: State, step: Step, wired: bool, indexed: bool)
    requires Inv(s, indexed)
    ensures Inv(Do(s, step, wired, indexed), indexed) && Grown(s, Do(s, step, wired, indexed))
  {
    if Enabled(s, step) {
      if step.Save? {
        SaveKeepsCalls(s, step.c, wired, indexed);
      } else {
        OtherStepKeepsCalls(s, step, wired, indexed);
      }
      StepKeepsPackages(s, step, wired, indexed);
    }
  }

  lemma {:induction false} RunKeepsInv(steps: seq<Step>, wired: bool, indexed: bool)
    ensures Inv(Run(steps, wired, indexed), indexed)
  {
    if steps != [] {
      RunKeepsInv(steps[..|steps| - 1], wired, indexed);
      StepKeepsInv(Run(steps[..|steps| - 1], wired, indexed), steps[|steps| - 1], wired, indexed);
    }
  }

  // ---- A call on its own ----

  /** With nobody in between, the steps of a call do what the use case does: it fails, or answers with a stored package, ... */
  lemma AloneAnswers(s: State, c: CallId, call: Call, wired: bool, indexed: bool)
    requires Inv(s, indexed) && Enabled(s, Begin(c, call))
    ensures var begun := Do(s, Begin(c, call), wired, indexed);
            && Do(begun, LookFails(c), wired, indexed) == State(s.packages, s.calls[c := InFlight(call, Finished(Err(ReadFailed)))])
            && forall id :: IsPackageOf(s.packages, call.task, id) ==>
                 Do(begun, Find(c, id), wired, indexed) == State(s.packages, s.calls[c := InFlight(call, Finished(Ok(s.packages[id])))])
  {
  }

  /** ... or seals the task's first package. */
  lemma AloneSeals(s: State, c: CallId, call: Call, wired: bool, indexed: bool)
    requires Inv(s, indexed) && Enabled(s, Begin(c, call)) && !HasPackage(s.packages, call.task)
    ensures var (packages, r) := FirstSeal(s.packages, wired, call);
            Do(Do(Do(s, Begin(c, call), wired, indexed), Miss(c), wired, indexed), Save(c), wired, indexed)
            == State(packages, s.calls[c := InFlight(call, Finished(r))])
  {
    var begun := Do(s, Begin(c, call), wired, indexed);
    Misses(begun, c, call, wired, indexed);
    Saves(Do(begun, Miss(c), wired, indexed), c, call, wired, indexed);
  }

  lemma Misses(s: State, c: CallId, call: Call, wired: bool, indexed: bool)
    requires c in s.calls && s.calls[c] == InFlight(call, Started) && !HasPackage(s.packages, call.task)
    ensures var r := Prepared(wired, call);
            Do(s, Miss(c), wired, indexed)
            == State(s.packages, s.calls[c := InFlight(call, if r.Ok? then Ready(r.value) else Finished(r))])
  {
  }

  lemma Saves(s: State, c: CallId, call: Call, wired: bool, indexed: bool)
    requires c in s.calls && !HasPackage(s.packages, call.task)
    requires var r := Prepared(wired, call); s.calls[c] == InFlight(call, if r.Ok? then Ready(r.value) else Finished(r))
    ensures var (packages, r) := FirstSeal(s.packages, wired, call);
            Do(s, Save(c), wired, indexed) == State(packages, s.calls[c := InFlight(call, Finished(r))])
  {
    PreparedRow(wired, call);
    if Prepared(wired, call).Ok? {
      NoneTaken(s.packages, Prepared(wired, call).value, call.task);
    }
  }

  lemma NoneTaken(packages: PackageStore, row: Row, task: TaskId)
    requires row.task == Some(task) && !HasPackage(packages, task)
    ensures !Taken(packages, row)
  {
    forall id | id in packages ensures packages[id].task != row.task {
      assert !IsPackageOf(packages, task, id);
    }
  }

  // ---- With the index ----

  /** In every interleaving a task has at most one package, and every call that succeeded for it was given that one. */
  lemma IndexKeepsOnePerTask(steps: seq<Step>, wired: bool)
    ensures var s := Run(steps, wired, true);
            && OnePerTask(s.packages)
            && forall c, d ::
                 (c in s.calls && d in s.calls && s.calls[c].call.task == s.calls[d].call.task && Succeeded(s, c) && Succeeded(s, d))
                 ==> s.calls[c].phase == s.calls[d].phase
  {
    RunKeepsInv(steps, wired, true);
    var s := Run(steps, wired, true);
    forall c, d | c in s.calls && d in s.calls && s.calls[c].call.task == s.calls[d].call.task && Succeeded(s, c) && Succeeded(s, d)
      ensures s.calls[c].phase == s.calls[d].phase
    {
      assert CallHolds(s.packages, s.calls[c]) && CallHolds(s.packages, s.calls[d]);
    }
  }

  predicate Succeeded(s: State, c: CallId)
    requires c in s.calls
  {
    s.calls[c].phase.Finished? && s.calls[c].phase.result.Ok?
  }

  /** A save that comes late gets an error and leaves the store alone: exactly when another call's package is there, or its own scope rolls back. */
  lemma LateSaverIsRefused(steps: seq<Step>, wired: bool, c: CallId)
    requires Enabled(Run(steps, wired, true), Save(c))
    ensures var s := Run(steps, wired, true);
            var s' := After(s, Save(c), wired, true);
            var call := s.calls[c].call;
            (s'.packages == s.packages && s'.calls[c].phase == Finished(Err(ScopeFailed)))
            <==> HasPackage(s.packages, call.task) || call.scope == RollsBack
  {
    RunKeepsInv(steps, wired, true);
    var s := Run(steps, wired, true);
    var row, task := s.calls[c].phase.row, s.calls[c].call.task;
    assert CallHolds(s.packages, s.calls[c]);
    assert Taken(s.packages, row) <==> HasPackage(s.packages, task) by {
      if HasPackage(s.packages, task) {
        var id :| IsPackageOf(s.packages, task, id);
        assert id != row.id;
      }
      if Taken(s.packages, row) {
        var id :| id in s.packages && id != row.id && row.task.Some? && s.packages[id].task == row.task;
        assert IsPackageOf(s.packages, task, id);
      }
    }
  }

  // ---- Without it ----

  ghost predicate TwoPackages(packages: PackageStore, task: TaskId) {
    exists a, b :: a != b && IsPackageOf(packages, task, a) && IsPackageOf(packages, task, b)
  }

  predicate IsReady(s: State, c: CallId, task: TaskId) {
    c in s.calls && s.calls[c].phase.Ready? && s.calls[c].call.task == task
  }

  /** At some point of the run both calls had looked and neither had saved. */
  ghost predicate Overlapped(steps: seq<Step>, wired: bool, indexed: bool, c: CallId, d: CallId, task: TaskId) {
    exists n :: 0 <= n <= |steps|
                && IsReady(Run(steps[..n], wired, indexed), c, task) && IsReady(Run(steps[..n], wired, indexed), d, task)
  }

  lemma OverlapStays(steps: seq<Step>, wired: bool, indexed: bool, c: CallId, d: CallId, task: TaskId)
    requires steps != [] && Overlapped(steps[..|steps| - 1], wired, indexed, c, d, task)
    ensures Overlapped(steps, wired, indexed, c, d, task)
  {
    var front := steps[..|steps| - 1];
    var n :| 0 <= n <= |front| && IsReady(Run(front[..n], wired, indexed), c, task) && IsReady(Run(front[..n], wired, indexed), d, task);
    assert front[..n] == steps[..n];
  }

  lemma OverlapNow(steps: seq<Step>, wired: bool, indexed: bool, c: CallId, d: CallId, task: TaskId)
    requires IsReady(Run(steps, wired, indexed), c, task) && IsReady(Run(steps, wired, indexed), d, task)
    ensures Overlapped(steps, wired, indexed, c, d, task)
  {
    assert steps[..|steps|] == steps;
  }

  /** The call has saved, or could. */
  predicate Contends(s: State, c: CallId, task: TaskId) {
    c in s.calls && s.calls[c].call.task == task && (HasSaved(s, c) || s.calls[c].phase.Ready?)
  }

  /** What a step makes of a contender: it contended before, or it has just missed and nobody has saved. */
  lemma ContendsBefore(s: State, step: Step, wired: bool, indexed: bool, c: CallId, task: TaskId)
    requires Inv(s, indexed) && Contends(Do(s, step, wired, indexed), c, task)
    ensures Contends(s, c, task) || (step == Miss(c) && Enabled(s, step) && !HasPackage(s.packages, task))
    ensures HasSaved(Do(s, step, wired, indexed), c) && !HasSaved(s, c) ==> step == Save(c) && IsReady(s, c, task)
  {
    if Enabled(s, step) && step.Save? {
      assert CallHolds(s.packages, s.calls[step.c]);
    }
  }

  lemma SavedNothing(s: State, c: CallId, task: TaskId, indexed: bool)
    requires Inv(s, indexed) && c in s.calls && s.calls[c].call.task == task && !HasPackage(s.packages, task)
    ensures !HasSaved(s, c)
  {
    assert !IsPackageOf(s.packages, task, s.calls[c].call.newId);
  }

  /** Two contenders of a task, at least one of which has saved, overlapped. */
  lemma {:induction false} ContendersOverlapped(steps: seq<Step>, wired: bool, indexed: bool, c: CallId, d: CallId, task: TaskId)
    requires c != d
    requires var s := Run(steps, wired, indexed); Contends(s, c, task) && Contends(s, d, task) && HasSaved(s, d)
    ensures Overlapped(steps, wired, indexed, c, d, task)
  {
    if steps != [] {
      var front, last := steps[..|steps| - 1], steps[|steps| - 1];
      var s := Run(front, wired, indexed);
      RunKeepsInv(front, wired, indexed);
      ContendsBefore(s, last, wired, indexed, c, task);
      ContendsBefore(s, last, wired, indexed, d, task);
      if d in s.calls && s.calls[d].call.task == task && !HasPackage(s.packages, task) {
        SavedNothing(s, d, task, indexed);
      }
      if HasSaved(s, d) {
        ContendersOverlapped(front, wired, indexed, c, d, task);
        OverlapStays(steps, wired, indexed, c, d, task);
      } else if HasSaved(s, c) {
        ContendersOverlapped(front, wired, indexed, d, c, task);
        OverlapSwaps(front, wired, indexed, d, c, task);
        OverlapStays(steps, wired, indexed, c, d, task);
      } else {
        OverlapNow(front, wired, indexed, c, d, task);
        OverlapStays(steps, wired, indexed, c, d, task);
      }
    }
  }

  lemma OverlapSwaps(steps: seq<Step>, wired: bool, indexed: bool, c: CallId, d: CallId, task: TaskId)
    requires Overlapped(steps, wired, indexed, c, d, task)
    ensures Overlapped(steps, wired, indexed, d, c, task)
  {
  }

  /** The call is past its look; and past its scope, it has saved unless the scope rolled back. */
  predicate PastLook(s: State, c: CallId, task: TaskId) {
    c in s.calls && s.calls[c].call.task == task
    && (s.calls[c].phase.Ready? || (s.calls[c].phase.Finished? && (s.calls[c].call.scope != RollsBack ==> HasSaved(s, c))))
  }

  lemma PastLookStays(s: State, step: Step, wired: bool, c: CallId, task: TaskId)
    requires Inv(s, false) && PastLook(s, c, task)
    ensures PastLook(Do(s, step, wired, false), c, task)
  {
    assert CallHolds(s.packages, s.calls[c]);
  }

  /** Without the index a call that was ready stays past its look. */
  lemma {:induction false} ReadySaves(steps: seq<Step>, wired: bool, n: nat, c: CallId, task: TaskId)
    requires n <= |steps| && IsReady(Run(steps[..n], wired, false), c, task)
    ensures PastLook(Run(steps, wired, false), c, task)
    decreases |steps|
  {
    if n == |steps| {
      assert steps[..n] == steps;
    } else {
      var front := steps[..|steps| - 1];
      assert front[..n] == steps[..n];
      ReadySaves(front, wired, n, c, task);
      RunKeepsInv(front, wired, false);
      PastLookStays(Run(front, wired, false), steps[|steps| - 1], wired, c, task);
    }
  }

  lemma SaverOf(s: State, id: PackageId, task: TaskId) returns (c: CallId)
    requires SaversHold(s) && PackagesHold(s) && IsPackageOf(s.packages, task, id)
    ensures WentThrough(s, c) && Contends(s, c, task) && HasSaved(s, c) && s.calls[c].call.newId == id
  {
    assert SavedBySome(s, id);
    c :| c in s.calls && HasSaved(s, c) && s.calls[c].call.newId == id;
  }

  lemma OverlapSavesTwo(steps: seq<Step>, wired: bool, c: CallId, d: CallId, task: TaskId)
    requires var s := Run(steps, wired, false);
             c != d && WentThrough(s, c) && WentThrough(s, d) && Overlapped(steps, wired, false, c, d, task)
    ensures TwoPackages(Run(steps, wired, false).packages, task)
  {
    RunKeepsInv(steps, wired, false);
    var s := Run(steps, wired, false);
    var n :| 0 <= n <= |steps| && IsReady(Run(steps[..n], wired, false), c, task) && IsReady(Run(steps[..n], wired, false), d, task);
    ReadySaves(steps, wired, n, c, task);
    ReadySaves(steps, wired, n, d, task);
    assert IsPackageOf(s.packages, task, s.calls[c].call.newId) && IsPackageOf(s.packages, task, s.calls[d].call.newId);
  }

  /**
   Without the index a task gets two packages exactly when two of its calls were both past their look at one point of
   the run, and both went on through a scope that did not roll back.
   */
  lemma TwoPackagesExactlyWhen(steps: seq<Step>, wired: bool, task: TaskId)
    ensures var s := Run(steps, wired, false);
            TwoPackages(s.packages, task)
            <==> exists c, d :: c != d && WentThrough(s, c) && WentThrough(s, d) && Overlapped(steps, wired, false, c, d, task)
  {
    var s := Run(steps, wired, false);
    if TwoPackages(s.packages, task) {
      RunKeepsInv(steps, wired, false);
      var a, b :| a != b && IsPackageOf(s.packages, task, a) && IsPackageOf(s.packages, task, b);
      var c := SaverOf(s, a, task);
      var d := SaverOf(s, b, task);
      ContendersOverlapped(steps, wired, false, c, d, task);
    }
    if c, d :| c != d && WentThrough(s, c) && WentThrough(s, d) && Overlapped(steps, wired, false, c, d, task) {
      OverlapSavesTwo(steps, wired, c, d, task);
    }
  }

  lemma OneMore(steps: seq<Step>, step: Step, wired: bool, indexed: bool)
    ensures Run(steps + [step], wired, indexed) == Do(Run(steps, wired, indexed), step, wired, indexed)
  {
    assert (steps + [step])[..|steps|] == steps;
  }

  /** Two calls in flight, both past their look. */
  predicate BothReady(s: State, a: Call, b: Call, ra: Row, rb: Row) {
    s.packages == map[] && s.calls == map[0 := InFlight(a, Ready(ra)), 1 := InFlight(b, Ready(rb))]
  }

  lemma TwoLook(a: Call, b: Call, wired: bool) returns (steps: seq<Step>)
    requires a.newId != b.newId && Prepared(wired, a).Ok? && Prepared(wired, b).Ok?
    ensures BothReady(Run(steps, wired, false), a, b, Prepared(wired, a).value, Prepared(wired, b).value)
  {
    var s1 := State(map[], map[0 := InFlight(a, Started)]);
    var s2 := State(map[], map[0 := InFlight(a, Started), 1 := InFlight(b, Started)]);
    assert Run([], wired, false) == Init;
    OneMore([], Begin(0, a), wired, false);
    OneMore([] + [Begin(0, a)], Begin(1, b), wired, false);
    steps := [] + [Begin(0, a)] + [Begin(1, b)];
    assert Do(Init, Begin(0, a), wired, false) == s1;
    assert Do(s1, Begin(1, b), wired, false) == s2;
    var s3 := Missed(s2, 0, wired);
    var s4 := Missed(s3, 1, wired);
    OneMore(steps, Miss(0), wired, false);
    OneMore(steps + [Miss(0)], Miss(1), wired, false);
    steps := steps + [Miss(0)] + [Miss(1)];
  }

  lemma Missed(s: State, c: CallId, wired: bool) returns (s': State)
    requires s.packages == map[] && c in s.calls && s.calls[c].phase.Started? && Prepared(wired, s.calls[c].call).Ok?
    ensures s' == Do(s, Miss(c), wired, false)
    ensures s'.packages == map[] && s'.calls == Moved(s, c, Ready(Prepared(wired, s.calls[c].call).value))
  {
    s' := Do(s, Miss(c), wired, false);
  }

  lemma SavedTwo(s: State, a: Call, b: Call, ra: Row, rb: Row, wired: bool)
    requires BothReady(s, a, b, ra, rb) && a.scope != RollsBack && b.scope != RollsBack
    ensures Do(Do(s, Save(0), wired, false), Save(1), wired, false).packages == map[ra.id := ra][rb.id := rb]
  {
    var s1 := Do(s, Save(0), wired, false);
    assert s1.packages == map[ra.id := ra] && 1 in s1.calls && s1.calls[1] == InFlight(b, Ready(rb));
  }

  /** And it does happen: any two calls that can seal the task, both looking before either saves, leave two packages. */
  lemma WithoutIndexTwoPackages(a: Call, b: Call, wired: bool) returns (steps: seq<Step>)
    requires a.task == b.task && a.newId != b.newId && a.scope != RollsBack && b.scope != RollsBack
    requires Prepared(wired, a).Ok? && Prepared(wired, b).Ok?
    ensures TwoPackages(Run(steps, wired, false).packages, a.task)
  {
    var ra, rb := Prepared(wired, a).value, Prepared(wired, b).value;
    PreparedRow(wired, a);
    PreparedRow(wired, b);
    var before := TwoLook(a, b, wired);
    SavedTwo(Run(before, wired, false), a, b, ra, rb, wired);
    OneMore(before, Save(0), wired, false);
    OneMore(before + [Save(0)], Save(1), wired, false);
    steps := before + [Save(0)] + [Save(1)];
    var packages := Run(steps, wired, false).packages;
    assert IsPackageOf(packages, a.task, ra.id) && IsPackageOf(packages, a.task, rb.id);
  }
}

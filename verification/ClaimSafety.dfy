/** What the racing claim protocol guarantees in every reachable state. */
module ClaimSafety {
  import opened Prelude
  import opened Tasks
  import opened TaskStore
  import opened TaskUseCases
  import opened ClaimProtocol

  ghost predicate Reaches(trace: seq<State>, steps: seq<Step>, s: State) {
    IsRun(trace, steps) && trace[0] == Init(trace[0].clock) && trace[|steps|] == s
  }

  ghost predicate Reachable(s: State) {
    exists trace, steps :: Reaches(trace, steps, s)
  }

  lemma {:induction false} RunKeepsInv(trace: seq<State>, steps: seq<Step>, n: nat)
    requires IsRun(trace, steps) && trace[0] == Init(trace[0].clock) && n <= |steps|
    ensures HistoryInv(trace[n]) && CallsInv(trace[n])
  {
    if n > 0 {
      RunKeepsInv(trace, steps, n - 1);
      HistoryStep(trace[n - 1], steps[n - 1]);
      CallsStep(trace[n - 1], steps[n - 1]);
    }
  }

  lemma ReachableInv(s: State)
    requires Reachable(s)
    ensures HistoryInv(s) && CallsInv(s)
  {
    var trace, steps :| Reaches(trace, steps, s);
    RunKeepsInv(trace, steps, |steps|);
  }

  // ---- At most one holder ----

  /** k is the last entry of the log that set a lease on the task. */
  predicate LastSet(log: seq<Entry>, id: TaskId, k: nat) {
    k < |log| && SetsLease(log[k], id) && forall m :: k < m < |log| ==> !SetsLease(log[m], id)
  }

  /**
   Once a lease was set on a task, its history always points at the last one set: still held until then, or
   given up no earlier than its expiry, or turned into a completion.
   */
  lemma {:induction false} LastLease(log: seq<Entry>, id: TaskId, i: nat) returns (k: nat)
    requires LawfulLog(log) && i < |log| && SetsLease(log[i], id)
    ensures i <= k && LastSet(log, id, k)
    ensures match HoldingOf(log, id)
            case Absent => false
            case Free => log[k].expiry <= log[|log| - 1].at
            case Held(_, expiry) => expiry == log[k].expiry
            case Done => true
  {
    var init, last := log[..|log| - 1], log[|log| - 1];
    if SetsLease(last, id) {
      k := |log| - 1;
    } else {
      k := LastLease(init, id, i);
      assert log[k] == init[k];
    }
  }

  lemma {:induction false} LawfulPrefix(log: seq<Entry>, n: nat)
    requires LawfulLog(log) && n <= |log|
    ensures LawfulLog(log[..n])
    ensures n < |log| ==> Lawful(HoldingOf(log[..n], log[n].id), log[n]) && (n > 0 ==> log[n - 1].at <= log[n].at)
  {
    if n == |log| {
      assert log[..n] == log;
    } else {
      var init := log[..|log| - 1];
      if n < |log| - 1 {
        LawfulPrefix(init, n);
      }
      assert init[..n] == log[..n];
    }
  }

  /**
   Between two wins of one task, the last lease set on it before the second win, whether by the first win or by a
   renewal, had run out on the global clock when the second win committed.
   */
  lemma WinsAreSeparated(log: seq<Entry>, i: nat, j: nat, id: TaskId) returns (k: nat)
    requires LawfulLog(log) && i < j < |log|
    requires log[i].Win? && log[i].id == id && log[j].Win? && log[j].id == id
    ensures i <= k < j && SetsLease(log[k], id) && log[k].expiry <= log[j].at
    ensures forall m :: k < m < j ==> !SetsLease(log[m], id)
  {
    var before := log[..j];
    LawfulPrefix(log, j);
    k := LastLease(before, id, i);
    assert log[k] == before[k];
    forall m | k < m < j ensures !SetsLease(log[m], id) {
      assert log[m] == before[m];
    }
  }

  /** A completed task is never won, renewed, released or completed again. */
  lemma {:induction false} CompletionIsFinal(log: seq<Entry>, i: nat, j: nat, id: TaskId)
    requires LawfulLog(log) && i < j < |log|
    requires log[i].Completion? && log[i].id == id
    ensures log[j].id != id && HoldingOf(log[..j], id) == Done
  {
    LawfulPrefix(log, j);
    if j == i + 1 {
      assert log[..j][..i] == log[..i];
    } else {
      CompletionIsFinal(log, i, j - 1, id);
      assert log[..j][..j - 1] == log[..j - 1];
    }
  }

  /** Entry i is c's win and j is d's later one; k is the last lease set in between, run out by j's time. */
  predicate SeparatedAt(log: seq<Entry>, c: CallId, d: CallId, id: TaskId, i: nat, j: nat, k: nat) {
    && i <= k < j < |log| && WinOf(log[i], c, id) && WinOf(log[j], d, id)
    && SetsLease(log[k], id) && (forall m :: k < m < j ==> !SetsLease(log[m], id))
    && log[k].expiry <= log[j].at <= log[|log| - 1].at
  }

  /** d won the task after c did, and only once the last lease set before that had run out. */
  ghost predicate WonAfterExpiry(log: seq<Entry>, c: CallId, d: CallId, id: TaskId) {
    exists i, j, k :: SeparatedAt(log, c, d, id, i, j, k)
  }

  /**
   At-most-once assignment, as the callers see it: when two calls have both won one task, one of them won only
   after the last lease on it had expired.
   */
  lemma NoDoubleAssignment(s: State, c: CallId, d: CallId, id: TaskId)
    requires Reachable(s) && c in s.calls && d in s.calls && c != d
    requires s.calls[c].phase == Won(id) && s.calls[d].phase == Won(id)
    ensures WonAfterExpiry(s.log, c, d, id) || WonAfterExpiry(s.log, d, c, id)
    ensures s.log[|s.log| - 1].at <= s.clock
  {
    ReachableInv(s);
    assert HasWin(s.log, c, s.calls[c].phase.task) && HasWin(s.log, d, s.calls[d].phase.task);
    TwoWins(s.log, c, d, id);
  }

  lemma TwoWins(log: seq<Entry>, c: CallId, d: CallId, id: TaskId)
    requires LawfulLog(log) && c != d && HasWin(log, c, id) && HasWin(log, d, id)
    ensures log != []
    ensures WonAfterExpiry(log, c, d, id) || WonAfterExpiry(log, d, c, id)
  {
    var x :| 0 <= x < |log| && WinOf(log[x], c, id);
    var y :| 0 <= y < |log| && WinOf(log[y], d, id);
    if x < y {
      OneAfterOther(log, x, y, c, d, id);
    } else {
      OneAfterOther(log, y, x, d, c, id);
    }
  }

  lemma OneAfterOther(log: seq<Entry>, i: nat, j: nat, c: CallId, d: CallId, id: TaskId)
    requires LawfulLog(log) && i < j < |log| && WinOf(log[i], c, id) && WinOf(log[j], d, id)
    ensures WonAfterExpiry(log, c, d, id)
  {
    var k := WinsAreSeparated(log, i, j, id);
    TimesRise(log, j);
    assert SeparatedAt(log, c, d, id, i, j, k);
  }

  lemma {:induction false} TimesRise(log: seq<Entry>, j: nat)
    requires LawfulLog(log) && j < |log|
    ensures log[j].at <= log[|log| - 1].at
  {
    if j < |log| - 1 {
      TimesRise(log[..|log| - 1], j);
    }
  }

  /** A stored task is Completed for good: no step from a reachable state moves it again. */
  lemma CompletedRowStays(s: State, step: Step, id: TaskId)
    requires Reachable(s) && Enabled(s, step) && id in s.rows && s.rows[id].status == Completed
    ensures id in After(s, step).rows && After(s, step).rows[id] == s.rows[id]
  {
  }

  // ---- Who gets what ----

  /** Every fitting task the call could see with an earlier deadline than c's was lost: taken at its own compare-and-set. */
  predicate Outranked(call: Call, cpt: Time) {
    forall x :: x in call.seen && Fits(call.seen[x], call.taskType, call.caps, call.now) && call.seen[x].fixed.cpt < cpt ==>
      x in call.lost && !IsAvailable(call.lost[x], call.now)
  }

  /**
   Earliest deadline first, under races: the winner's task was a fitting one at its read, and every fitting task of
   earlier CPT was unclaimable at its own compare-and-set. A call that came away empty lost every fitting task.
   */
  lemma EarliestDeadlineFirst(s: State, c: CallId)
    requires Reachable(s) && c in s.calls
    ensures s.calls[c].phase.Won? ==>
              var call, id := s.calls[c], s.calls[c].phase.task;
              id in call.seen && Fits(call.seen[id], call.taskType, call.caps, call.now) && Outranked(call, call.seen[id].fixed.cpt)
    ensures s.calls[c].phase == NoTask ==>
              var call := s.calls[c];
              forall x :: x in call.seen && Fits(call.seen[x], call.taskType, call.caps, call.now) ==>
                x in call.lost && !IsAvailable(call.lost[x], call.now)
  {
    ReachableInv(s);
    var call := s.calls[c];
    assert CallInv(s, call);
    forall x | x in call.seen && Fits(call.seen[x], call.taskType, call.caps, call.now)
      ensures call.phase.Won? && call.seen[x].fixed.cpt < call.seen[call.phase.task].fixed.cpt ==> x in call.lost && !IsAvailable(call.lost[x], call.now)
      ensures call.phase == NoTask ==> x in call.lost && !IsAvailable(call.lost[x], call.now)
    {
      var j :| 0 <= j < |call.cands| && call.cands[j].fixed.id == x;
    }
  }

  /** In every reachable state the SQL update takes the same turn as the memory store: same verdict, same table. */
  lemma SqlTakesSameTurn(s: State, c: CallId)
    requires Reachable(s) && Enabled(s, Try(c)) && s.calls[c].next < |s.calls[c].cands|
    requires s.calls[c].cands[s.calls[c].next].fixed.required <= s.calls[c].caps
    ensures
      var call := s.calls[c];
      var (claimed, _) := ClaimResult(call.cands[call.next], call.station, call.caps, call.now, call.duration);
      var s' := After(s, Try(c));
      SqlSaveClaim(TableOf(s.rows), claimed, call.now) == Affected(TableOf(s'.rows), s'.log != s.log)
  {
    ReachableInv(s);
    var call := s.calls[c];
    CandidateFacts(s, call);
    TryEffect(s, c);
    var (claimed, _) := ClaimResult(call.cands[call.next], call.station, call.caps, call.now, call.duration);
    MemoryCasRefinesSql(s.rows, claimed, call.now);
  }

  // ---- Why complete, renew and release must each be one atomic step ----

  /** What a use case does with a row it has read, before it saves it blindly. */
  datatype Blind = BlindRenew(station: StationId, duration: Time) | BlindComplete(station: StationId) | BlindRelease

  /** The row to save, if the operation is accepted on the row that was read. */
  function BlindSave(op: Blind, read: Row, now: Time): Option<Row> {
    match op
    case BlindRenew(station, duration) =>
      var (r, err) := RenewResult(read, station, now, duration);
      if err.None? then Some(r) else None
    case BlindComplete(station) =>
      var (r, err) := CompleteResult(read, station, now);
      if err.None? then Some(r) else None
    case BlindRelease => if LeaseDue(read, now) then Some(Freed(read, now)) else None
  }

  /** What the save amounts to in the history. */
  function BlindEntry(op: Blind, id: TaskId, now: Time, at: Time): Entry {
    match op
    case BlindRenew(station, duration) => Renewal(id, station, now + duration, at)
    case BlindComplete(station) => Completion(id, station, at)
    case BlindRelease => Release(id, at)
  }

  /** The row found at the save still allows the operation: the caller's lease still runs, or the lease to be given up is due. */
  predicate StillAllowed(op: Blind, found: Row, at: Time) {
    match op
    case BlindRelease => LeaseDue(found, at)
    case _ => found.lease.Some? && found.lease.value.station == op.station && !Expired(found.lease.value, at)
  }

  /**
   The exact condition on a find and a blind save that are not one step: with the row read at `now` and saved at the
   later `at`, the history stays lawful exactly when the row found at the save still allows the operation. Then the
   store agrees with the history again.
   */
  lemma BlindSaveLawfulExactlyWhen(rows: Rows, id: TaskId, op: Blind, read: Row, now: Time, at: Time)
    requires Sound(rows) && id in rows && WellFormed(read) && read.fixed == rows[id].fixed && now <= at
    requires BlindSave(op, read, now).Some?
    ensures Lawful(HoldingIn(rows, id), BlindEntry(op, id, now, at)) <==> StillAllowed(op, rows[id], at)
    ensures HoldingIn(rows[id := BlindSave(op, read, now).value], id) == Moved(HoldingIn(rows, id), BlindEntry(op, id, now, at))
  {
    assert WellFormed(rows[id]);
  }

  /** In particular when the save finds the row it read: always for a release, and for the others while the lease runs. */
  lemma UnchangedRowIsSafe(rows: Rows, id: TaskId, op: Blind, now: Time, at: Time)
    requires Sound(rows) && id in rows && now <= at && BlindSave(op, rows[id], now).Some?
    ensures Lawful(HoldingIn(rows, id), BlindEntry(op, id, now, at))
            <==> op.BlindRelease? || (rows[id].lease.Some? && at < rows[id].lease.value.expiry)
  {
    BlindSaveLawfulExactlyWhen(rows, id, op, rows[id], now, at);
  }

  /**
   The sweep read this task while its lease was due; before the sweep's save, another station claimed it (the lease
   had expired) and completed it. The blind save of the stale copy then puts a completed task back in the pool.
   */
  lemma StaleSaveReopens(r: Row, station: StationId, caps: set<Capability>, now: Time, duration: Time)
    requires WellFormed(r) && LeaseDue(r, now) && r.fixed.required <= caps && duration > 0
    ensures
      var rows := map[r.fixed.id := r];
      var sweepCopy := Freed(r, now);
      var (claimed, err) := ClaimResult(r, station, caps, now, duration);
      var (rows1, won) := SaveClaimResult(rows, claimed, now);
      var (rows2, done) := CompleteStep(rows1, r.fixed.id, station, now);
      && err.None? && won && done.None? && rows2[r.fixed.id].status == Completed
      && rows2[r.fixed.id := sweepCopy][r.fixed.id].status == Pending
  {
  }
}

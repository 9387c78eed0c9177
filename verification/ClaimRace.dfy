/**
 N compatible stations race ClaimNext over M Pending tasks while no lease runs out: exactly min(N, M) of them win,
 each a task of its own, and nobody is sent away while a task is left.
 */
module ClaimRace {
  import opened Prelude
  import opened Tasks
  import opened TaskStore
  import opened TaskUseCases
  import opened ClaimProtocol
  import opened ClaimSafety

  function WonCalls(s: State): set<CallId> {
    set c | c in s.calls && s.calls[c].phase.Won?
  }

  function ClaimedIds(rows: Rows): set<TaskId> {
    set id | id in rows && rows[id].status == Claimed
  }

  predicate Finished(s: State) {
    forall c :: c in s.calls ==> s.calls[c].phase.Won? || s.calls[c].phase == NoTask
  }

  /** M Pending tasks of one type and nobody calling yet. */
  predicate StartLine(s: State, taskType: TaskType) {
    && s.calls == map[]
    && forall id :: id in s.rows ==> s.rows[id].status == Pending && s.rows[id].fixed.taskType == taskType
  }

  predicate Compatible(rows: Rows, caps: set<Capability>) {
    forall id :: id in rows ==> rows[id].fixed.required <= caps
  }

  /** Only claiming goes on: calls of the one type by stations that satisfy every task, and time passing. */
  predicate RaceStep(s: State, step: Step, taskType: TaskType) {
    match step
    case Tick(_) => true
    case Begin(_, _, caps, t, _) => t == taskType && Compatible(s.rows, caps)
    case Read(_, _) => true
    case Try(_) => true
    case _ => false
  }

  /** Every lease in the store is still running. */
  predicate NoLeaseDue(s: State) {
    forall id :: id in s.rows && s.rows[id].status == Claimed ==>
      s.rows[id].lease.Some? && s.clock < s.rows[id].lease.value.expiry
  }

  ghost predicate IsRace(trace: seq<State>, steps: seq<Step>, taskType: TaskType) {
    && IsRun(trace, steps)
    && StartLine(trace[0], taskType)
    && (forall i :: 0 <= i < |steps| ==> RaceStep(trace[i], steps[i], taskType))
    && (forall i :: 0 <= i < |trace| ==> NoLeaseDue(trace[i]))
  }

  // ---- The invariant of a race ----

  predicate RowsInv(s: State, ids: set<TaskId>, taskType: TaskType) {
    && s.rows.Keys == ids
    && forall id :: id in s.rows ==> s.rows[id].status != Completed && s.rows[id].fixed.taskType == taskType
  }

  /** The task is still among the call's untried candidates. */
  ghost predicate Ahead(call: Call, id: TaskId) {
    exists j :: call.next <= j < |call.cands| && call.cands[j].fixed.id == id
  }

  /** Every unclaimed task still lies ahead of a call in its loop, and none is left once a call came away empty. */
  ghost predicate RacerInv(rows: Rows, call: Call, taskType: TaskType) {
    && call.taskType == taskType && Compatible(rows, call.caps)
    && (call.phase == Trying ==> forall id :: id in rows && rows[id].status == Pending ==> Ahead(call, id))
    && (call.phase == NoTask ==> forall id :: id in rows ==> rows[id].status != Pending)
    && (call.phase.Won? ==> call.phase.task in rows && rows[call.phase.task].status == Claimed)
  }

  predicate DistinctPrizes(s: State) {
    forall c, d :: c in s.calls && d in s.calls && s.calls[c].phase.Won? && s.calls[d].phase.Won? && c != d ==>
      s.calls[c].phase.task != s.calls[d].phase.task
  }

  ghost predicate RaceInv(s: State, ids: set<TaskId>, taskType: TaskType) {
    && RowsInv(s, ids, taskType)
    && (forall c :: c in s.calls ==> RacerInv(s.rows, s.calls[c], taskType))
    && DistinctPrizes(s)
    && |WonCalls(s)| == |ClaimedIds(s.rows)|
  }

  /** With no lease due, a turn wins exactly the Pending task. */
  lemma RaceTry(s: State, c: CallId)
    requires Sound(s.rows) && c in s.calls && CallInv(s, s.calls[c]) && Enabled(s, Try(c))
    requires NoLeaseDue(s) && Compatible(s.rows, s.calls[c].caps)
    ensures
      var call, s' := s.calls[c], After(s, Try(c));
      if call.next >= |call.cands| then s' == s.(calls := s.calls[c := call.(phase := NoTask)])
      else
        var id := call.cands[call.next].fixed.id;
        && id in s.rows
        && if s.rows[id].status == Pending then
             && s'.calls == s.calls[c := call.(phase := Won(id))]
             && s'.rows == s.rows[id := AfterClaim(s.rows[id], call.station, call.now, call.duration)]
           else
             && s'.calls == s.calls[c := call.(next := call.next + 1, lost := call.lost[id := s.rows[id]])]
             && s'.rows == s.rows
  {
    CandidateFacts(s, s.calls[c]);
    TryEffect(s, c);
  }

  lemma RaceTryKeeps(s: State, c: CallId, ids: set<TaskId>, taskType: TaskType)
    requires Sound(s.rows) && c in s.calls && CallInv(s, s.calls[c]) && Enabled(s, Try(c)) && NoLeaseDue(s)
    requires RaceInv(s, ids, taskType)
    ensures RaceInv(After(s, Try(c)), ids, taskType)
  {
    var call, s' := s.calls[c], After(s, Try(c));
    assert RacerInv(s.rows, call, taskType);
    RaceTry(s, c);
    if call.next >= |call.cands| {
      EmptyHanded(s, s', c, ids, taskType);
    } else {
      var id := call.cands[call.next].fixed.id;
      if s.rows[id].status == Pending {
        TurnWon(s, s', c, id, s'.rows[id], ids, taskType);
      } else {
        TurnLost(s, s', c, ids, taskType);
      }
    }
  }

  lemma RaceBegin(s: State, step: Step, ids: set<TaskId>, taskType: TaskType)
    requires Enabled(s, step) && (step.Begin? || step.Tick?)
    requires RaceInv(s, ids, taskType) && RaceStep(s, step, taskType)
    ensures RaceInv(After(s, step), ids, taskType)
  {
    assert WonCalls(After(s, step)) == WonCalls(s);
  }

  lemma RaceStepKeeps(s: State, step: Step, ids: set<TaskId>, taskType: TaskType)
    requires Sound(s.rows) && CallsInv(s) && Enabled(s, step) && NoLeaseDue(s)
    requires RaceInv(s, ids, taskType) && RaceStep(s, step, taskType)
    ensures RaceInv(After(s, step), ids, taskType)
  {
    match step
    case Try(c) => RaceTryKeeps(s, c, ids, taskType);
    case Read(c, cands) =>
      assert CallInv(s, s.calls[c]);
      RaceRead(s, c, cands, ids, taskType);
    case _ => RaceBegin(s, step, ids, taskType);
  }

  lemma RaceRead(s: State, c: CallId, cands: seq<Row>, ids: set<TaskId>, taskType: TaskType)
    requires Enabled(s, Read(c, cands)) && RaceInv(s, ids, taskType) && s.calls[c].next == 0
    ensures RaceInv(After(s, Read(c, cands)), ids, taskType)
  {
    var s' := After(s, Read(c, cands));
    assert RacerInv(s.rows, s.calls[c], taskType);
    assert WonCalls(s') == WonCalls(s);
    forall d | d in s'.calls ensures RacerInv(s'.rows, s'.calls[d], taskType) {
      if d != c {
        assert RacerInv(s.rows, s.calls[d], taskType);
      } else {
        forall id | id in s.rows && s.rows[id].status == Pending ensures Ahead(s'.calls[c], id) {
          var j :| 0 <= j < |cands| && cands[j].fixed.id == id;
          assert s'.calls[c].cands[j].fixed.id == id;
        }
      }
    }
  }

  lemma EmptyHanded(s: State, s': State, c: CallId, ids: set<TaskId>, taskType: TaskType)
    requires RaceInv(s, ids, taskType) && c in s.calls && s.calls[c].phase == Trying && s.calls[c].next >= |s.calls[c].cands|
    requires s' == s.(calls := s.calls[c := s.calls[c].(phase := NoTask)])
    ensures RaceInv(s', ids, taskType)
  {
    assert RacerInv(s.rows, s.calls[c], taskType);
    assert WonCalls(s') == WonCalls(s);
    assert forall id :: !Ahead(s.calls[c], id);
    forall d | d in s'.calls ensures RacerInv(s'.rows, s'.calls[d], taskType) {
      assert RacerInv(s.rows, s.calls[d], taskType);
    }
  }

  lemma TurnLost(s: State, s': State, c: CallId, ids: set<TaskId>, taskType: TaskType)
    requires RaceInv(s, ids, taskType) && c in s.calls && s.calls[c].phase == Trying && s.calls[c].next < |s.calls[c].cands|
    requires var id := s.calls[c].cands[s.calls[c].next].fixed.id; id in s.rows && s.rows[id].status != Pending
    requires s'.rows == s.rows && c in s'.calls && s'.calls == s.calls[c := s'.calls[c]]
    requires s'.calls[c] == s.calls[c].(next := s.calls[c].next + 1, lost := s'.calls[c].lost)
    ensures RaceInv(s', ids, taskType)
  {
    assert WonCalls(s') == WonCalls(s);
    forall d | d in s'.calls ensures RacerInv(s'.rows, s'.calls[d], taskType) {
      assert RacerInv(s.rows, s.calls[d], taskType);
      if d == c {
        forall id | id in s.rows && s.rows[id].status == Pending ensures Ahead(s'.calls[c], id) {
          assert Ahead(s.calls[c], id);
          var j :| s.calls[c].next <= j < |s.calls[c].cands| && s.calls[c].cands[j].fixed.id == id;
          assert s'.calls[c].cands[j].fixed.id == id;
        }
      }
    }
  }

  lemma TurnWon(s: State, s': State, c: CallId, id: TaskId, r: Row, ids: set<TaskId>, taskType: TaskType)
    requires RaceInv(s, ids, taskType) && c in s.calls && s.calls[c].phase == Trying
    requires id in s.rows && s.rows[id].status == Pending && r.status == Claimed && r.fixed == s.rows[id].fixed
    requires s'.calls == s.calls[c := s.calls[c].(phase := Won(id))] && s'.rows == s.rows[id := r]
    ensures RaceInv(s', ids, taskType)
  {
    forall d | d in s.calls ensures RacerInv(s'.rows, s'.calls[d], taskType) && (s.calls[d].phase.Won? ==> s.calls[d].phase.task != id) {
      RacerKept(s.rows, id, r, s.calls[d], taskType);
    }
    OneMoreWinner(s, s', c, id);
    NewPrize(s, s', c, id);
  }

  lemma RacerKept(rows: Rows, id: TaskId, r: Row, call: Call, taskType: TaskType)
    requires RacerInv(rows, call, taskType) && id in rows && rows[id].status == Pending
    requires r.status == Claimed && r.fixed == rows[id].fixed
    ensures RacerInv(rows[id := r], call, taskType) && (call.phase.Won? ==> call.phase.task != id)
  {
  }

  lemma NewPrize(s: State, s': State, c: CallId, id: TaskId)
    requires DistinctPrizes(s) && c in s.calls && s'.calls == s.calls[c := s.calls[c].(phase := Won(id))]
    requires forall d :: d in s.calls && s.calls[d].phase.Won? ==> s.calls[d].phase.task != id
    ensures DistinctPrizes(s')
  {
  }

  lemma OneMoreWinner(s: State, s': State, c: CallId, id: TaskId)
    requires c in s.calls && s.calls[c].phase == Trying && id in s.rows && s.rows[id].status == Pending
    requires id in s'.rows && s'.rows == s.rows[id := s'.rows[id]] && s'.rows[id].status == Claimed
    requires s'.calls == s.calls[c := s.calls[c].(phase := Won(id))]
    ensures WonCalls(s') == WonCalls(s) + {c} && c !in WonCalls(s)
    ensures |WonCalls(s')| == |WonCalls(s)| + 1 && |ClaimedIds(s'.rows)| == |ClaimedIds(s.rows)| + 1
  {
    assert WonCalls(s') == WonCalls(s) + {c};
    assert ClaimedIds(s'.rows) == ClaimedIds(s.rows) + {id};
  }

  lemma {:induction false} RaceKeepsInv(trace: seq<State>, steps: seq<Step>, taskType: TaskType, n: nat)
    requires IsRace(trace, steps, taskType) && HistoryInv(trace[0]) && n <= |steps|
    ensures HistoryInv(trace[n]) && CallsInv(trace[n]) && RaceInv(trace[n], trace[0].rows.Keys, taskType)
  {
    if n == 0 {
      assert WonCalls(trace[0]) == {} == ClaimedIds(trace[0].rows);
    } else {
      RaceKeepsInv(trace, steps, taskType, n - 1);
      HistoryStep(trace[n - 1], steps[n - 1]);
      CallsStep(trace[n - 1], steps[n - 1]);
      RaceStepKeeps(trace[n - 1], steps[n - 1], trace[0].rows.Keys, taskType);
    }
  }

  function Min(a: nat, b: nat): nat {
    if a < b then a else b
  }

  /**
   The race, whatever the interleaving. At every moment different winners hold different tasks, and a call that
   reported "no claimable task" did so with every task taken. When all N calls have finished, exactly min(N, M)
   have won.
   */
  lemma RaceOutcome(trace: seq<State>, steps: seq<Step>, taskType: TaskType)
    requires IsRace(trace, steps, taskType) && Reachable(trace[0])
    ensures
      var s := trace[|steps|];
      && DistinctPrizes(s)
      && (forall c :: c in s.calls && s.calls[c].phase == NoTask ==> ClaimedIds(s.rows) == trace[0].rows.Keys)
      && (Finished(s) ==> |WonCalls(s)| == Min(|s.calls|, |trace[0].rows|))
  {
    ReachableInv(trace[0]);
    RaceKeepsInv(trace, steps, taskType, |steps|);
    RaceCounts(trace[|steps|], trace[0].rows.Keys, taskType);
  }

  lemma RaceCounts(s: State, ids: set<TaskId>, taskType: TaskType)
    requires RaceInv(s, ids, taskType)
    ensures forall c :: c in s.calls && s.calls[c].phase == NoTask ==> ClaimedIds(s.rows) == ids
    ensures Finished(s) ==> |WonCalls(s)| == Min(|s.calls|, |ids|)
  {
    Subsets(ClaimedIds(s.rows), ids);
    forall c | c in s.calls && s.calls[c].phase == NoTask ensures ClaimedIds(s.rows) == ids {
      assert RacerInv(s.rows, s.calls[c], taskType);
    }
    if Finished(s) {
      assert |s.calls.Keys| == |s.calls|;
      Subsets(WonCalls(s), s.calls.Keys);
      if WonCalls(s) != s.calls.Keys {
        var c :| c in s.calls && c !in WonCalls(s);
        assert s.calls[c].phase == NoTask;
      }
    }
  }

  lemma Subsets<T>(a: set<T>, b: set<T>)
    requires a <= b
    ensures |a| <= |b| && (a != b ==> |a| < |b|)
  {
    assert b == a + (b - a);
    if a != b {
      assert b - a != {};
    }
  }
}

/**
 How long a lease protects its task (claim_next.go, renew_lease.go, task.go): a configured duration counts from the
 instant its call captured, five minutes stand for one that is not configured, and until then nobody else gets the task.
 */
module ClaimLeases {
  import opened Prelude
  import opened Tasks
  import opened TaskStore
  import opened TaskUseCases
  import opened ClaimProtocol
  import opened ClaimSafety

  /** The win is that of its call: its station, its captured `now` and its duration. */
  predicate WinIsOf(s: State, e: Entry) {
    e.Win? ==>
      && e.call in s.calls
      && e.station == s.calls[e.call].station
      && e.expiry == s.calls[e.call].now + s.calls[e.call].duration
      && s.calls[e.call].now <= e.at
  }

  ghost predicate WinsAreOfCalls(s: State) {
    forall k :: 0 <= k < |s.log| ==> WinIsOf(s, s.log[k])
  }

  /** What a step leaves of a call once begun. */
  lemma CallKept(s: State, step: Step, c: CallId)
    requires Enabled(s, step) && c in s.calls
    ensures c in After(s, step).calls
    ensures var before, after := s.calls[c], After(s, step).calls[c];
            after.station == before.station && after.now == before.now && after.duration == before.duration
  {
  }

  lemma NewEntry(s: State, step: Step)
    requires HistoryInv(s) && CallsInv(s) && Enabled(s, step)
    ensures After(s, step).log == s.log
            || (&& |After(s, step).log| == |s.log| + 1 && After(s, step).log[..|s.log|] == s.log
                && WinIsOf(After(s, step), After(s, step).log[|s.log|]))
  {
    if step.Try? {
      var c := step.c;
      assert CallInv(s, s.calls[c]);
      CandidateFacts(s, s.calls[c]);
      TryEffect(s, c);
    }
  }

  lemma WinsStay(s: State, step: Step)
    requires HistoryInv(s) && CallsInv(s) && Enabled(s, step) && WinsAreOfCalls(s)
    ensures WinsAreOfCalls(After(s, step))
  {
    var s' := After(s, step);
    NewEntry(s, step);
    LogGrows(s, step);
    forall k | 0 <= k < |s'.log| ensures WinIsOf(s', s'.log[k]) {
      if k < |s.log| {
        assert s'.log[k] == s.log[k] && WinIsOf(s, s.log[k]);
        if s.log[k].Win? {
          CallKept(s, step, s.log[k].call);
        }
      }
    }
  }

  lemma {:induction false} RunKeepsWins(trace: seq<State>, steps: seq<Step>, n: nat)
    requires IsRun(trace, steps) && trace[0] == Init(trace[0].clock) && n <= |steps|
    ensures WinsAreOfCalls(trace[n])
  {
    if n > 0 {
      RunKeepsWins(trace, steps, n - 1);
      RunKeepsInv(trace, steps, n - 1);
      WinsStay(trace[n - 1], steps[n - 1]);
    }
  }

  lemma {:induction false} CallIsAsBegun(trace: seq<State>, steps: seq<Step>, i: nat, n: nat)
    requires IsRun(trace, steps) && i < n <= |steps| && steps[i].Begin?
    ensures var c := steps[i].c;
            && c in trace[n].calls
            && trace[n].calls[c].station == steps[i].station
            && trace[n].calls[c].now == trace[i].clock
            && trace[n].calls[c].duration == if steps[i].configured > 0 then steps[i].configured else 300_000_000_000
  {
    if n == i + 1 {
      assert trace[i + 1] == After(trace[i], steps[i]);
    } else {
      CallIsAsBegun(trace, steps, i, n - 1);
      CallKept(trace[n - 1], steps[n - 1], steps[i].c);
    }
  }

  /**
   In every run a call that wins holds a lease that lasts its configured duration, or five minutes, from the instant the
   call began, whenever the compare-and-set came.
   */
  lemma WinLasts(trace: seq<State>, steps: seq<Step>, i: nat, n: nat, id: TaskId) returns (k: nat)
    requires IsRun(trace, steps) && trace[0] == Init(trace[0].clock) && i < n <= |steps| && steps[i].Begin?
    requires steps[i].c in trace[n].calls && trace[n].calls[steps[i].c].phase == Won(id)
    ensures k < |trace[n].log| && trace[n].log[k].Win? && trace[n].log[k].id == id
    ensures var e := trace[n].log[k];
            && e.call == steps[i].c && e.station == steps[i].station && trace[i].clock <= e.at
            && e.expiry == trace[i].clock + if steps[i].configured > 0 then steps[i].configured else 300_000_000_000
  {
    RunKeepsInv(trace, steps, n);
    RunKeepsWins(trace, steps, n);
    CallIsAsBegun(trace, steps, i, n);
    var c := steps[i].c;
    assert HasWin(trace[n].log, c, id);
    k :| 0 <= k < |trace[n].log| && WinOf(trace[n].log[k], c, id);
    assert WinIsOf(trace[n], trace[n].log[k]);
  }

  /** An accepted renewal lasts its configured duration, or five minutes, from its own instant, on the row and in the history. */
  lemma RenewalLasts(s: State, id: TaskId, station: StationId, configured: Time)
    requires Reachable(s)
    ensures var s' := After(s, Renew(id, station, configured));
            var expiry := s.clock + if configured > 0 then configured else 300_000_000_000;
            if id in s.rows && s.rows[id].lease.Some? && s.rows[id].lease.value.station == station && s.clock < s.rows[id].lease.value.expiry
            then s'.log == s.log + [Renewal(id, station, expiry, s.clock)]
                 && s'.rows == s.rows[id := s.rows[id].(lease := Some(Lease(station, expiry)))]
            else s' == s
  {
    ReachableInv(s);
    if id in s.rows {
      assert WellFormed(s.rows[id]);
    }
  }

  /**
   A renewal replaces the lease, so it may also cut it: after it the task can be freed at a time before the old expiry
   exactly when the renewal's own duration has run out by then.
   */
  lemma RenewalCutsExactlyWhen(s: State, id: TaskId, station: StationId, configured: Time, t: Time)
    requires Reachable(s) && id in s.rows && s.rows[id].lease.Some? && s.rows[id].lease.value.station == station
    requires s.clock <= t < s.rows[id].lease.value.expiry
    ensures Enabled(After(After(s, Renew(id, station, configured)), Tick(t)), ReleaseDue(id))
            <==> s.clock + (if configured > 0 then configured else 300_000_000_000) <= t
    ensures !Enabled(After(s, Tick(t)), ReleaseDue(id))
  {
    ReachableInv(s);
    assert WellFormed(s.rows[id]);
    RenewalLasts(s, id, station, configured);
  }

  /** The entry takes the task from its holder. */
  predicate Takes(e: Entry, id: TaskId) {
    e.id == id && (e.Win? || e.Release?)
  }

  /** Nobody has taken the task between the two entries. */
  predicate NotTaken(log: seq<Entry>, k: nat, m: nat, id: TaskId)
    requires m <= |log|
  {
    forall i :: k < i < m ==> !Takes(log[i], id)
  }

  /** The holder has not given up any of the lease set by the k-th entry. */
  predicate NotShortened(log: seq<Entry>, k: nat, j: nat, id: TaskId)
    requires k < |log| && SetsLease(log[k], id) && j <= |log|
  {
    forall m :: k < m < j && log[m].Renewal? && log[m].id == id && NotTaken(log, k, m, id) ==> log[m].expiry >= log[k].expiry
  }

  /**
   A lease protects: once set on a task, by a win or a renewal, no other call wins the task and no release frees it at a
   time before its expiry - unless its own holder renewed it to an earlier expiry in between.
   */
  lemma {:induction false} LeaseProtects(log: seq<Entry>, k: nat, j: nat, id: TaskId)
    requires LawfulLog(log) && k < j < |log| && SetsLease(log[k], id) && Takes(log[j], id) && NotShortened(log, k, j, id)
    ensures log[j].at >= log[k].expiry
    decreases j
  {
    if m :| k < m < j && Takes(log[m], id) {
      LeaseProtects(log, k, m, id);
      LawfulPrefix(log, j + 1);
      assert log[..j + 1][m] == log[m];
      TimesRise(log[..j + 1], m);
    } else {
      FirstTakeIsLate(log, k, j, id);
    }
  }

  lemma FirstTakeIsLate(log: seq<Entry>, k: nat, j: nat, id: TaskId)
    requires LawfulLog(log) && k < j < |log| && SetsLease(log[k], id) && Takes(log[j], id)
    requires NotTaken(log, k, j, id) && NotShortened(log, k, j, id)
    ensures log[j].at >= log[k].expiry
  {
    var before := log[..j];
    LawfulPrefix(log, j);
    assert before[k] == log[k];
    var last := LastLease(before, id, k);
    assert log[last] == before[last];
    if last > k {
      assert !Takes(log[last], id);
      assert NotTaken(log, k, last, id);
    }
    LastIsEarlier(log, last, j);
  }

  lemma LastIsEarlier(log: seq<Entry>, i: nat, j: nat)
    requires LawfulLog(log) && i < j < |log|
    ensures log[..j][|log[..j]| - 1].at <= log[j].at
  {
    LawfulPrefix(log, j);
  }

  /** In every run: when no renewal asks for a shorter lease than the win had left, the winner keeps the task for the whole of its lease. */
  lemma WinnerKeepsTask(trace: seq<State>, steps: seq<Step>, n: nat, k: nat, j: nat, id: TaskId)
    requires IsRun(trace, steps) && trace[0] == Init(trace[0].clock) && n <= |steps|
    requires var log := trace[n].log;
             && k < j < |log| && log[k].Win? && log[k].id == id && Takes(log[j], id)
             && forall m :: k < m < j && log[m].Renewal? && log[m].id == id ==> log[m].expiry - log[m].at >= log[k].expiry - log[k].at
    ensures trace[n].log[j].at >= trace[n].log[k].expiry
  {
    RunKeepsInv(trace, steps, n);
    var log := trace[n].log;
    forall m | k < m < j && log[m].Renewal? && log[m].id == id ensures log[m].expiry >= log[k].expiry {
      assert log[..m + 1][k] == log[k];
      LawfulPrefix(log, m + 1);
      TimesRise(log[..m + 1], k);
    }
    LeaseProtects(log, k, j, id);
  }
}

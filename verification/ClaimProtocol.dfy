/**
 The racing claim protocol (claim_next.go, task_repo.go): any number of ClaimNext calls, each a captured `now`,
 a plain read of candidates and then one compare-and-set per candidate, interleaved with renewals, completions,
 releases by the sweep, new tasks and the passing of time.

 CompleteTask, RenewLease and the sweep's treatment of one task are each ONE atomic step here; in the source
 they are a find followed by a blind save. `StaleSaveReopens` shows what that assumption is for.
 */
module ClaimProtocol {
  import opened Prelude
  import opened Tasks
  import opened TaskStore
  import opened TaskUseCases

  type CallId = nat

  datatype Phase = Captured | Trying | Won(task: TaskId) | NoTask

  /**
   One ClaimNext call in flight. `seen` is the store at its read and `lost` the stored row each lost
   compare-and-set found; both are for the record only.
   */
  datatype Call = Call(
    station: StationId, caps: set<Capability>, taskType: TaskType, now: Time, duration: Time,
    phase: Phase, cands: seq<Row>, next: nat, seen: Rows, lost: Rows)

  /** The history of the store, in commit order; `at` is the global clock. */
  datatype Entry =
    | Creation(id: TaskId, at: Time)
    | Win(id: TaskId, call: CallId, station: StationId, expiry: Time, at: Time)
    | Renewal(id: TaskId, station: StationId, expiry: Time, at: Time)
    | Release(id: TaskId, at: Time)
    | Completion(id: TaskId, station: StationId, at: Time)

  datatype State = State(clock: Time, rows: Rows, calls: map<CallId, Call>, log: seq<Entry>)

  datatype Step =
    | Tick(to: Time)
    | Create(fixed: Fixed)
    | Begin(c: CallId, station: StationId, caps: set<Capability>, taskType: TaskType, configured: Time)
    | Read(c: CallId, cands: seq<Row>)
    | Try(c: CallId)
    | Renew(id: TaskId, station: StationId, configured: Time)
    | Complete(id: TaskId, station: StationId)
    | ReleaseDue(id: TaskId)

  function Init(clock: Time): State {
    State(clock, map[], map[], [])
  }

  predicate Enabled(s: State, step: Step) {
    match step
    case Tick(to) => s.clock <= to
    case Create(fixed) => fixed.id !in s.rows
    case Begin(c, _, _, _, _) => c !in s.calls
    case Read(c, cands) => c in s.calls && s.calls[c].phase == Captured
                           && IsCandidateList(s.rows, s.calls[c].taskType, s.calls[c].now, cands)
    case Try(c) => c in s.calls && s.calls[c].phase == Trying
    case Renew(_, _, _) => true
    case Complete(_, _) => true
    case ReleaseDue(id) => id in s.rows && LeaseDue(s.rows[id], s.clock)
  }

  /** One turn of the candidate loop: the private claim, then the compare-and-set. */
  function AfterTry(s: State, c: CallId): State
    requires Enabled(s, Try(c))
  {
    var call := s.calls[c];
    if call.next >= |call.cands| then s.(calls := s.calls[c := call.(phase := NoTask)])
    else
      var t := call.cands[call.next];
      var id := t.fixed.id;
      var (claimed, err) := ClaimResult(t, call.station, call.caps, call.now, call.duration);
      if err.Some? then s.(calls := s.calls[c := call.(next := call.next + 1)])
      else
        var (rows, ok) := SaveClaimResult(s.rows, claimed, call.now);
        if ok then
          s.(rows := rows, calls := s.calls[c := call.(phase := Won(id))],
             log := s.log + [Win(id, c, call.station, call.now + call.duration, s.clock)])
        else
          s.(calls := s.calls[c := call.(next := call.next + 1, lost := call.lost[id := s.rows[id]])])
  }

  function After(s: State, step: Step): State
    requires Enabled(s, step)
  {
    match step
    case Tick(to) => s.(clock := to)
    case Create(fixed) => s.(rows := s.rows[fixed.id := NewRow(fixed)], log := s.log + [Creation(fixed.id, s.clock)])
    case Begin(c, station, caps, taskType, configured) =>
      s.(calls := s.calls[c := Call(station, caps, taskType, s.clock, EffectiveDuration(configured), Captured, [], 0, map[], map[])])
    case Read(c, cands) => s.(calls := s.calls[c := s.calls[c].(phase := Trying, cands := cands, seen := s.rows)])
    case Try(c) => AfterTry(s, c)
    case Renew(id, station, configured) =>
      var (rows, err) := RenewStep(s.rows, id, station, s.clock, EffectiveDuration(configured));
      if err.Some? then s
      else s.(rows := rows, log := s.log + [Renewal(id, station, s.clock + EffectiveDuration(configured), s.clock)])
    case Complete(id, station) =>
      var (rows, err) := CompleteStep(s.rows, id, station, s.clock);
      if err.Some? then s else s.(rows := rows, log := s.log + [Completion(id, station, s.clock)])
    case ReleaseDue(id) =>
      s.(rows := s.rows[id := Freed(s.rows[id], s.clock)], log := s.log + [Release(id, s.clock)])
  }

  /** A run: the state after each step, every step enabled where it is taken. */
  predicate IsRun(trace: seq<State>, steps: seq<Step>) {
    && |trace| == |steps| + 1
    && forall i :: 0 <= i < |steps| ==> Enabled(trace[i], steps[i]) && trace[i + 1] == After(trace[i], steps[i])
  }

  // ---- What the history says about one task ----

  datatype Holding = Absent | Free | Held(station: StationId, expiry: Time) | Done

  function Moved(h: Holding, e: Entry): Holding {
    match e
    case Creation(_, _) => Free
    case Win(_, _, station, expiry, _) => Held(station, expiry)
    case Renewal(_, station, expiry, _) => Held(station, expiry)
    case Release(_, _) => Free
    case Completion(_, _, _) => Done
  }

  function HoldingOf(log: seq<Entry>, id: TaskId): Holding {
    if log == [] then Absent
    else
      var last := log[|log| - 1];
      var before := HoldingOf(log[..|log| - 1], id);
      if last.id == id then Moved(before, last) else before
  }

  function HoldingIn(rows: Rows, id: TaskId): Holding {
    if id !in rows then Absent
    else match rows[id].status
      case Pending => Free
      case Completed => Done
      case Claimed => if rows[id].lease.Some? then Held(rows[id].lease.value.station, rows[id].lease.value.expiry) else Absent
  }

  /** When an entry may follow a history: the at-most-once rules, on the global clock. */
  predicate Lawful(h: Holding, e: Entry) {
    match e
    case Creation(_, _) => h == Absent
    case Win(_, _, _, _, at) => h == Free || (h.Held? && h.expiry <= at)
    case Renewal(_, station, _, at) => h.Held? && h.station == station && at < h.expiry
    case Release(_, at) => h.Held? && h.expiry <= at
    case Completion(_, station, at) => h.Held? && h.station == station && at < h.expiry
  }

  /** Every entry lawful where it stands, and times never run back. */
  predicate LawfulLog(log: seq<Entry>) {
    log == [] ||
    (var init, last := log[..|log| - 1], log[|log| - 1];
     && LawfulLog(init) && Lawful(HoldingOf(init, last.id), last)
     && (init != [] ==> init[|init| - 1].at <= last.at))
  }

  predicate SetsLease(e: Entry, id: TaskId) {
    e.id == id && (e.Win? || e.Renewal?)
  }

  // ---- The invariant ----

  ghost predicate HistoryInv(s: State) {
    && Sound(s.rows)
    && LawfulLog(s.log)
    && (s.log != [] ==> s.log[|s.log| - 1].at <= s.clock)
    && (forall id :: HoldingOf(s.log, id) == HoldingIn(s.rows, id))
  }

  /** No row a call has seen has gone, or had a fixed column changed. */
  predicate Grown(seen: Rows, rows: Rows) {
    forall id :: id in seen ==> id in rows && seen[id].fixed == rows[id].fixed && rows[id].fixed.id == id
  }

  /** Every candidate passed over was lost: the row its compare-and-set found was not to be had. */
  predicate PassedOver(call: Call) {
    && call.next <= |call.cands|
    && forall j :: 0 <= j < call.next && call.cands[j].fixed.required <= call.caps ==>
         call.cands[j].fixed.id in call.lost && !IsAvailable(call.lost[call.cands[j].fixed.id], call.now)
  }

  predicate PhaseInv(call: Call) {
    && call.next <= |call.cands|
    && match call.phase
       case Captured => call.cands == [] && call.seen == map[]
       case Trying => true
       case Won(id) => call.next < |call.cands| && call.cands[call.next].fixed.id == id && call.cands[call.next].fixed.required <= call.caps
       case NoTask => call.next == |call.cands|
  }

  ghost predicate CallInv(s: State, call: Call) {
    && call.now <= s.clock && call.duration > 0
    && IsCandidateList(call.seen, call.taskType, call.now, call.cands)
    && Grown(call.seen, s.rows)
    && PassedOver(call)
    && PhaseInv(call)
  }

  predicate WinOf(e: Entry, c: CallId, id: TaskId) {
    e.Win? && e.call == c && e.id == id
  }

  /** Every call in order, and every won call with its entry in the history. */
  ghost predicate CallsInv(s: State) {
    && (forall c :: c in s.calls ==> CallInv(s, s.calls[c]))
    && (forall c :: c in s.calls && s.calls[c].phase.Won? ==> HasWin(s.log, c, s.calls[c].phase.task))
  }

  ghost predicate HasWin(log: seq<Entry>, c: CallId, id: TaskId) {
    exists k :: 0 <= k < |log| && WinOf(log[k], c, id)
  }

  // ---- One step ----

  /** What a step may do to store and history: nothing, or one lawful entry and the row it describes. */
  ghost predicate Effect(s: State, s': State) {
    || (s'.rows == s.rows && s'.log == s.log)
    || exists e: Entry, r: Row :: EffectIs(s, s', e, r)
  }

  predicate EffectIs(s: State, s': State, e: Entry, r: Row) {
    && s'.rows == s.rows[e.id := r] && s'.log == s.log + [e] && e.at == s.clock
    && r.fixed.id == e.id && WellFormed(r)
    && (e.id in s.rows ==> r.fixed == s.rows[e.id].fixed)
    && Lawful(HoldingIn(s.rows, e.id), e)
    && HoldingIn(s'.rows, e.id) == Moved(HoldingIn(s.rows, e.id), e)
  }

  /** The candidate whose turn it is: available when read, still stored, with the same fixed columns. */
  predicate CandidateStored(s: State, call: Call) {
    call.next < |call.cands| ==>
      var t := call.cands[call.next];
      t.fixed.id in s.rows && t.fixed == s.rows[t.fixed.id].fixed && IsAvailable(t, call.now)
  }

  /**
   A compare-and-set succeeds only on a row that is Pending or whose lease has really run out by the clock, and
   otherwise the stored row was not to be had at the call's own `now`.
   */
  lemma TryEffect(s: State, c: CallId)
    requires Enabled(s, Try(c)) && Sound(s.rows)
    requires s.calls[c].now <= s.clock && CandidateStored(s, s.calls[c])
    ensures
      var call, s' := s.calls[c], After(s, Try(c));
      if call.next >= |call.cands| then s' == s.(calls := s.calls[c := call.(phase := NoTask)])
      else
        var t := call.cands[call.next];
        var id := t.fixed.id;
        if !(t.fixed.required <= call.caps) then s' == s.(calls := s.calls[c := call.(next := call.next + 1)])
        else if IsAvailable(s.rows[id], call.now) then
          && (s.rows[id].status == Pending || LeaseDue(s.rows[id], s.clock))
          && s' == s.(rows := s.rows[id := AfterClaim(s.rows[id], call.station, call.now, call.duration)],
                      calls := s.calls[c := call.(phase := Won(id))],
                      log := s.log + [Win(id, c, call.station, call.now + call.duration, s.clock)])
        else s' == s.(calls := s.calls[c := call.(next := call.next + 1, lost := call.lost[id := s.rows[id]])])
  {
  }

  lemma CandidateFacts(s: State, call: Call)
    requires CallInv(s, call)
    ensures CandidateStored(s, call)
  {
    if call.next < |call.cands| {
      assert call.seen[call.cands[call.next].fixed.id] == call.cands[call.next];
    }
  }

  lemma TryStepEffect(s: State, c: CallId)
    requires Sound(s.rows) && c in s.calls && CallInv(s, s.calls[c]) && Enabled(s, Try(c))
    ensures Effect(s, After(s, Try(c)))
  {
    var call, s' := s.calls[c], After(s, Try(c));
    CandidateFacts(s, call);
    TryEffect(s, c);
    if s'.log != s.log {
      var id := call.cands[call.next].fixed.id;
      assert EffectIs(s, s', s'.log[|s.log|], s'.rows[id]);
    }
  }

  lemma StepEffect(s: State, step: Step)
    requires Sound(s.rows) && CallsInv(s) && Enabled(s, step)
    ensures Effect(s, After(s, step))
  {
    var s' := After(s, step);
    match step
    case Try(c) => TryStepEffect(s, c);
    case Create(fixed) => assert EffectIs(s, s', Creation(fixed.id, s.clock), NewRow(fixed));
    case Renew(id, station, configured) =>
      if s'.log != s.log {
        assert EffectIs(s, s', s'.log[|s.log|], s'.rows[id]);
      }
    case Complete(id, station) =>
      if s'.log != s.log {
        assert EffectIs(s, s', s'.log[|s.log|], s'.rows[id]);
      }
    case ReleaseDue(id) => assert EffectIs(s, s', Release(id, s.clock), s'.rows[id]);
    case _ =>
  }

  lemma HoldingStep(s: State, s': State, e: Entry, r: Row, id: TaskId)
    requires EffectIs(s, s', e, r) && HoldingOf(s.log, id) == HoldingIn(s.rows, id)
    ensures HoldingOf(s'.log, id) == HoldingIn(s'.rows, id)
  {
  }

  lemma SoundStep(s: State, s': State, e: Entry, r: Row)
    requires EffectIs(s, s', e, r) && Sound(s.rows)
    ensures Sound(s'.rows)
  {
  }

  lemma LawfulAppend(log: seq<Entry>, e: Entry)
    requires LawfulLog(log) && Lawful(HoldingOf(log, e.id), e) && (log != [] ==> log[|log| - 1].at <= e.at)
    ensures LawfulLog(log + [e])
  {
    assert (log + [e])[..|log|] == log;
  }

  lemma HistoryEffect(s: State, s': State, e: Entry, r: Row)
    requires HistoryInv(s) && EffectIs(s, s', e, r) && s.clock <= s'.clock
    ensures HistoryInv(s')
  {
    assert HoldingOf(s.log, e.id) == HoldingIn(s.rows, e.id);
    SoundStep(s, s', e, r);
    LawfulAppend(s.log, e);
    forall id ensures HoldingOf(s'.log, id) == HoldingIn(s'.rows, id) {
      HoldingStep(s, s', e, r, id);
    }
  }

  lemma ClockRuns(s: State, step: Step)
    requires Enabled(s, step)
    ensures s.clock <= After(s, step).clock
  {
  }

  /** Every step keeps the history true to the store, and lawful. */
  lemma HistoryStep(s: State, step: Step)
    requires HistoryInv(s) && CallsInv(s) && Enabled(s, step)
    ensures HistoryInv(After(s, step))
  {
    var s' := After(s, step);
    StepEffect(s, step);
    ClockRuns(s, step);
    if !(s'.rows == s.rows && s'.log == s.log) {
      var e, r :| EffectIs(s, s', e, r);
      HistoryEffect(s, s', e, r);
    }
  }

  /** No step removes a row or touches a fixed column. */
  lemma GrownStep(s: State, step: Step, seen: Rows)
    requires Sound(s.rows) && CallsInv(s) && Enabled(s, step) && Grown(seen, s.rows)
    ensures Grown(seen, After(s, step).rows)
  {
    StepEffect(s, step);
  }

  lemma TryCallStep(s: State, c: CallId)
    requires Sound(s.rows) && c in s.calls && CallInv(s, s.calls[c]) && Enabled(s, Try(c))
    ensures
      var call, call' := s.calls[c], After(s, Try(c)).calls[c];
      && call' == call.(phase := call'.phase, next := call'.next, lost := call'.lost)
      && PassedOver(call') && PhaseInv(call')
  {
    CandidateFacts(s, s.calls[c]);
    TryEffect(s, c);
    PassedOverStep(s.calls[c], After(s, Try(c)).calls[c]);
  }

  lemma CallStep(s: State, step: Step, c: CallId)
    requires Sound(s.rows) && CallsInv(s) && Enabled(s, step) && c in After(s, step).calls
    ensures CallInv(After(s, step), After(s, step).calls[c])
  {
    if c in s.calls {
      GrownStep(s, step, s.calls[c].seen);
      OldCallStep(s, step, c);
    }
  }

  lemma OldCallStep(s: State, step: Step, c: CallId)
    requires Sound(s.rows) && Enabled(s, step) && c in s.calls && CallInv(s, s.calls[c])
    requires Grown(s.calls[c].seen, After(s, step).rows)
    ensures c in After(s, step).calls && CallInv(After(s, step), After(s, step).calls[c])
  {
    if step == Try(c) {
      TryCallStep(s, c);
    } else if step.Read? && step.c == c {
      ReadStep(s, c, step.cands);
    } else {
      OtherCallStep(s, step, c);
    }
  }

  lemma ReadStep(s: State, c: CallId, cands: seq<Row>)
    requires Sound(s.rows) && c in s.calls && CallInv(s, s.calls[c]) && Enabled(s, Read(c, cands))
    ensures CallInv(After(s, Read(c, cands)), After(s, Read(c, cands)).calls[c])
  {
  }

  lemma OtherCallStep(s: State, step: Step, c: CallId)
    requires Enabled(s, step) && c in s.calls && step != Try(c) && !(step.Read? && step.c == c)
    ensures c in After(s, step).calls && After(s, step).calls[c] == s.calls[c]
    ensures s.clock <= After(s, step).clock
  {
  }

  /** The compare-and-set just lost joins the earlier ones; no two candidates share an id. */
  lemma PassedOverStep(call: Call, call': Call)
    requires PassedOver(call)
    requires forall i, j :: 0 <= i < j < |call.cands| ==> call.cands[i].fixed.id != call.cands[j].fixed.id
    requires call'.cands == call.cands && call'.caps == call.caps && call'.now == call.now
    requires
      || (call'.next == call.next && call'.lost == call.lost)
      || (&& call.next < |call.cands| && call'.next == call.next + 1
          && if call.cands[call.next].fixed.required <= call.caps
             then exists r :: call'.lost == call.lost[call.cands[call.next].fixed.id := r] && !IsAvailable(r, call.now)
             else call'.lost == call.lost)
    ensures PassedOver(call')
  {
  }

  lemma CallsStep(s: State, step: Step)
    requires HistoryInv(s) && CallsInv(s) && Enabled(s, step)
    ensures CallsInv(After(s, step))
  {
    var s' := After(s, step);
    forall c | c in s'.calls ensures CallInv(s', s'.calls[c]) {
      CallStep(s, step, c);
    }
    forall c | c in s'.calls && s'.calls[c].phase.Won? ensures HasWin(s'.log, c, s'.calls[c].phase.task) {
      WinStep(s, step, c);
    }
  }

  lemma LogGrows(s: State, step: Step)
    requires Enabled(s, step)
    ensures s.log <= After(s, step).log
  {
  }

  lemma WinKept(log: seq<Entry>, log': seq<Entry>, c: CallId, id: TaskId)
    requires HasWin(log, c, id) && log <= log'
    ensures HasWin(log', c, id)
  {
  }

  lemma NewWin(s: State, c: CallId)
    requires Sound(s.rows) && c in s.calls && CallInv(s, s.calls[c]) && Enabled(s, Try(c))
    requires After(s, Try(c)).calls[c].phase.Won?
    ensures HasWin(After(s, Try(c)).log, c, After(s, Try(c)).calls[c].phase.task)
  {
    CandidateFacts(s, s.calls[c]);
    TryEffect(s, c);
    assert WinOf(After(s, Try(c)).log[|s.log|], c, After(s, Try(c)).calls[c].phase.task);
  }

  /** Only its own turns change a call's phase, and only a turn makes it Won. */
  lemma WinStep(s: State, step: Step, c: CallId)
    requires Sound(s.rows) && CallsInv(s) && Enabled(s, step)
    requires c in After(s, step).calls && After(s, step).calls[c].phase.Won?
    ensures HasWin(After(s, step).log, c, After(s, step).calls[c].phase.task)
  {
    if step == Try(c) {
      NewWin(s, c);
    } else {
      OtherPhase(s, step, c);
      LogGrows(s, step);
      WinKept(s.log, After(s, step).log, c, s.calls[c].phase.task);
    }
  }

  lemma OtherPhase(s: State, step: Step, c: CallId)
    requires Enabled(s, step) && step != Try(c)
    requires c in After(s, step).calls && After(s, step).calls[c].phase.Won?
    ensures c in s.calls && s.calls[c].phase == After(s, step).calls[c].phase
  {
  }
}

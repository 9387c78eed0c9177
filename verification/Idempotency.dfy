/**
 The idempotency-key middleware (internal/adapters/inbound/http/idempotency.go): insert-or-wait on the key, run the
 handler inside the same transaction, record the outcome, commit, and only then reply.

 Any number of requests interleave, one database statement at a time. A request's open transaction lives in its own
 phase, so nothing of it can be seen before its commit. The insert waits while another open transaction holds the key:
 that is the unique index, and it is the one thing assumed of the database besides the atomic commit.
 */
module Idempotency {
  import opened Prelude

  type ReqId = nat
  type Key = nat
  // The hash of a body; equal hashes mean equal bodies.
  type Hash = nat
  // Status, headers and body, as the recorder captured them.
  type Response = nat
  type Write = nat

  datatype KeyRow = KeyRow(hash: Hash, outcome: Option<Response>)

  /** One handler execution that committed, with its domain writes. */
  datatype Effect = Effect(req: ReqId, key: Key, hash: Hash, response: Response, writes: seq<Write>)

  datatype Db = Db(keys: map<Key, KeyRow>, effects: seq<Effect>)

  datatype Reply =
    | FromHandler(response: Response)
    | Replayed(response: Response)
    | KeyReused          // 422
    | MissingKey         // 400
    | UnreadableBody     // 400
    | ServerError        // 500
    | NoReply            // the process or the connection died

  datatype Phase =
    | Arrived
    | Inserted(row: KeyRow)
    | Handled(row: KeyRow, response: Response, writes: seq<Write>, aborted: bool)
    | Recorded(row: KeyRow, response: Response, writes: seq<Write>)
    | Committed(response: Response)
    | Existing
    | Finished(reply: Reply)

  datatype Req = Req(key: Option<Key>, hash: Hash, phase: Phase)

  datatype State = State(db: Db, reqs: map<ReqId, Req>)

  datatype Step =
    | Arrive(r: ReqId, key: Option<Key>, hash: Hash, readable: bool)
    | Insert(r: ReqId)
    | InsertFails(r: ReqId)        // the begin or the insert
    | Handle(r: ReqId, response: Response, writes: seq<Write>, aborted: bool)
    | HandlerPanics(r: ReqId)
    | Record(r: ReqId)
    | RecordFails(r: ReqId)
    | Commit(r: ReqId)
    | CommitLost(r: ReqId)         // an error, and nothing committed
    | CommitUnknown(r: ReqId)      // an error, yet it committed
    | SendReply(r: ReqId)
    | Read(r: ReqId)
    | ReadFails(r: ReqId)
    | Die(r: ReqId)                // whatever was open rolls back

  const Init: State := State(Db(map[], []), map[])

  /** The request holds its key's uncommitted row. */
  predicate Holds(req: Req, key: Key) {
    req.key == Some(key) && (req.phase.Inserted? || req.phase.Handled? || req.phase.Recorded?)
  }

  predicate Blocked(s: State, key: Key) {
    exists other :: other in s.reqs && Holds(s.reqs[other], key)
  }

  predicate Enabled(s: State, step: Step) {
    if step.Arrive? then step.r !in s.reqs
    else
      && step.r in s.reqs
      && var req := s.reqs[step.r];
         match step
         case Insert(_) => req.phase.Arrived? && req.key.Some? && !Blocked(s, req.key.value)
         case InsertFails(_) => req.phase.Arrived?
         case Handle(_, _, _, _) => req.phase.Inserted?
         case HandlerPanics(_) => req.phase.Inserted?
         case Record(_) => req.phase.Handled? && !req.phase.aborted
         case RecordFails(_) => req.phase.Handled?
         case Commit(_) => req.phase.Recorded? && req.key.Some?
         case CommitLost(_) => req.phase.Recorded?
         case CommitUnknown(_) => req.phase.Recorded? && req.key.Some?
         case SendReply(_) => req.phase.Committed?
         case Read(_) => req.phase.Existing? && req.key.Some?
         case ReadFails(_) => req.phase.Existing?
         case Die(_) => !req.phase.Finished?
         case Arrive(_, _, _, _) => false
  }

  /** replayCachedResponse, once the row was read. */
  function ReplayOf(keys: map<Key, KeyRow>, key: Key, hash: Hash): Reply {
    if key !in keys then ServerError
    else if keys[key].hash != hash then KeyReused
    else if keys[key].outcome.None? then ServerError
    else Replayed(keys[key].outcome.value)
  }

  function CommitOf(db: Db, r: ReqId, key: Key, row: KeyRow, response: Response, writes: seq<Write>): Db {
    Db(db.keys[key := row], db.effects + [Effect(r, key, row.hash, response, writes)])
  }

  function NewPhase(s: State, step: Step): Phase
    requires Enabled(s, step)
  {
    match step
    case Arrive(_, key, _, readable) =>
      if key.None? then Finished(MissingKey) else if !readable then Finished(UnreadableBody) else Arrived
    case Insert(r) =>
      if s.reqs[r].key.value in s.db.keys then Existing else Inserted(KeyRow(s.reqs[r].hash, None))
    case Handle(r, response, writes, aborted) => Handled(s.reqs[r].phase.row, response, writes, aborted)
    case Record(r) =>
      var p := s.reqs[r].phase;
      Recorded(p.row.(outcome := Some(p.response)), p.response, p.writes)
    case Commit(r) => Committed(s.reqs[r].phase.response)
    case SendReply(r) => Finished(FromHandler(s.reqs[r].phase.response))
    case Read(r) => Finished(ReplayOf(s.db.keys, s.reqs[r].key.value, s.reqs[r].hash))
    case Die(_) => Finished(NoReply)
    case _ => Finished(ServerError)
  }

  function NewDb(s: State, step: Step): Db
    requires Enabled(s, step)
  {
    if step.Commit? || step.CommitUnknown? then
      var req := s.reqs[step.r];
      CommitOf(s.db, step.r, req.key.value, req.phase.row, req.phase.response, req.phase.writes)
    else s.db
  }

  function NewReq(s: State, step: Step): Req
    requires Enabled(s, step)
  {
    if step.Arrive? then Req(step.key, step.hash, NewPhase(s, step)) else s.reqs[step.r].(phase := NewPhase(s, step))
  }

  /** One step; a step that is not enabled waits. */
  function Do(s: State, step: Step): State {
    if Enabled(s, step) then State(NewDb(s, step), s.reqs[step.r := NewReq(s, step)]) else s
  }

  function Run(s: State, steps: seq<Step>): State {
    if steps == [] then s else Do(Run(s, steps[..|steps| - 1]), steps[|steps| - 1])
  }

  // ---- What every reachable state keeps ----

  predicate RowsHaveOutcomes(db: Db) {
    forall k :: k in db.keys ==> db.keys[k].outcome.Some?
  }

  ghost predicate HoldersExclusive(s: State) {
    && (forall r, key :: r in s.reqs && Holds(s.reqs[r], key) ==> key !in s.db.keys)
    && (forall r1, r2, key :: r1 in s.reqs && r2 in s.reqs && Holds(s.reqs[r1], key) && Holds(s.reqs[r2], key) ==> r1 == r2)
  }

  predicate EffectRecorded(db: Db, e: Effect) {
    e.key in db.keys && db.keys[e.key] == KeyRow(e.hash, Some(e.response))
  }

  predicate RowHasEffect(db: Db, key: Key) {
    exists i :: 0 <= i < |db.effects| && db.effects[i].key == key
  }

  predicate KeysDiffer(effects: seq<Effect>) {
    forall i, j :: 0 <= i < j < |effects| ==> effects[i].key != effects[j].key
  }

  /** The key table is exactly what the committed executions recorded, one row each. */
  predicate RowsMatchEffects(db: Db) {
    && (forall i :: 0 <= i < |db.effects| ==> EffectRecorded(db, db.effects[i]))
    && KeysDiffer(db.effects)
    && (forall k :: k in db.keys ==> RowHasEffect(db, k))
  }

  predicate HasEffect(db: Db, r: ReqId, key: Key, response: Response) {
    exists i :: 0 <= i < |db.effects| && db.effects[i].req == r && db.effects[i].key == key && db.effects[i].response == response
  }

  /** What a request's phase says is in the database. */
  predicate PhaseHolds(db: Db, r: ReqId, req: Req) {
    (req.phase != Finished(MissingKey) ==> req.key.Some?)
    && match req.phase
       case Inserted(row) => row == KeyRow(req.hash, None)
       case Handled(row, _, _, _) => row == KeyRow(req.hash, None)
       case Recorded(row, response, _) => row == KeyRow(req.hash, Some(response))
       case Committed(response) => req.key.Some? && HasEffect(db, r, req.key.value, response)
                                   && req.key.value in db.keys && db.keys[req.key.value] == KeyRow(req.hash, Some(response))
       case Existing => req.key.Some? && req.key.value in db.keys
       case Finished(FromHandler(response)) =>
         req.key.Some? && HasEffect(db, r, req.key.value, response)
         && req.key.value in db.keys && db.keys[req.key.value] == KeyRow(req.hash, Some(response))
       case Finished(Replayed(response)) =>
         req.key.Some? && req.key.value in db.keys && db.keys[req.key.value] == KeyRow(req.hash, Some(response))
       case Finished(KeyReused) =>
         req.key.Some? && req.key.value in db.keys && db.keys[req.key.value].hash != req.hash
       case _ => true
  }

  predicate PhasesHold(s: State) {
    forall r :: r in s.reqs ==> PhaseHolds(s.db, r, s.reqs[r])
  }

  /** Every execution belongs to a request that has left its transaction. */
  predicate EffectsHaveOwners(s: State) {
    forall i :: 0 <= i < |s.db.effects| ==>
      && s.db.effects[i].req in s.reqs
      && var req := s.reqs[s.db.effects[i].req];
         req.key == Some(s.db.effects[i].key) && req.hash == s.db.effects[i].hash && RanTheHandler(req.phase)
  }

  predicate RanTheHandler(phase: Phase) {
    phase.Committed?
    || (phase.Finished? && (phase.reply.FromHandler? || phase.reply == ServerError || phase.reply == NoReply))
  }

  ghost predicate Inv(s: State) {
    RowsHaveOutcomes(s.db) && HoldersExclusive(s) && RowsMatchEffects(s.db) && PhasesHold(s) && EffectsHaveOwners(s)
  }

  lemma CommitKeepsRows(db: Db, e: Effect)
    requires RowsMatchEffects(db) && RowsHaveOutcomes(db) && e.key !in db.keys
    ensures var db' := CommitOf(db, e.req, e.key, KeyRow(e.hash, Some(e.response)), e.response, e.writes);
            RowsMatchEffects(db') && RowsHaveOutcomes(db')
  {
    var db' := CommitOf(db, e.req, e.key, KeyRow(e.hash, Some(e.response)), e.response, e.writes);
    assert db'.effects[|db.effects|] == e;
    assert forall i :: 0 <= i < |db.effects| ==> db'.effects[i] == db.effects[i] && EffectRecorded(db, db.effects[i]);
    forall k | k in db'.keys ensures RowHasEffect(db', k) {
      if k != e.key {
        assert RowHasEffect(db, k);
        var i :| 0 <= i < |db.effects| && db.effects[i].key == k;
        assert db'.effects[i].key == k;
      }
    }
  }

  /** Rows and executions stay. */
  predicate Grows(a: Db, b: Db) {
    && (forall k :: k in a.keys ==> k in b.keys && b.keys[k] == a.keys[k])
    && |a.effects| <= |b.effects|
    && (forall i :: 0 <= i < |a.effects| ==> b.effects[i] == a.effects[i])
  }

  lemma PhaseStays(a: Db, b: Db, r: ReqId, req: Req)
    requires Grows(a, b) && PhaseHolds(a, r, req)
    ensures PhaseHolds(b, r, req)
  {
  }

  lemma StepGrows(s: State, step: Step)
    requires Inv(s)
    ensures Grows(s.db, Do(s, step).db)
    ensures RowsMatchEffects(Do(s, step).db) && RowsHaveOutcomes(Do(s, step).db)
  {
    if Enabled(s, step) && (step.Commit? || step.CommitUnknown?) {
      var req := s.reqs[step.r];
      assert Holds(req, req.key.value);
      assert PhaseHolds(s.db, step.r, req);
      CommitKeepsRows(s.db, Effect(step.r, req.key.value, req.hash, req.phase.response, req.phase.writes));
    }
  }

  lemma StepKeepsHolders(s: State, step: Step)
    requires Inv(s) && Enabled(s, step)
    ensures HoldersExclusive(Do(s, step))
  {
    var s' := Do(s, step);
    forall r, key | r in s'.reqs && Holds(s'.reqs[r], key)
      ensures key !in s'.db.keys
    {
      if step.Commit? || step.CommitUnknown? {
        assert r != step.r && Holds(s.reqs[r], key);
        assert Holds(s.reqs[step.r], s.reqs[step.r].key.value);
      } else if r != step.r || !step.Insert? {
        assert Holds(s.reqs[r], key);
      }
    }
    forall r1, r2, key | r1 in s'.reqs && r2 in s'.reqs && Holds(s'.reqs[r1], key) && Holds(s'.reqs[r2], key)
      ensures r1 == r2
    {
      OldHolder(s, step, r1, key);
      OldHolder(s, step, r2, key);
    }
  }

  lemma OldHolder(s: State, step: Step, r: ReqId, key: Key)
    requires Enabled(s, step) && r in Do(s, step).reqs && Holds(Do(s, step).reqs[r], key)
    ensures (r in s.reqs && Holds(s.reqs[r], key)) || (step == Insert(r) && !Blocked(s, key))
  {
  }

  lemma StepKeepsPhases(s: State, step: Step)
    requires Inv(s) && Enabled(s, step)
    ensures PhasesHold(Do(s, step))
  {
    StepGrows(s, step);
    var s' := Do(s, step);
    forall r | r in s'.reqs ensures PhaseHolds(s'.db, r, s'.reqs[r]) {
      if r == step.r {
        if r in s.reqs {
          assert PhaseHolds(s.db, r, s.reqs[r]);
          PhaseStays(s.db, s'.db, r, s.reqs[r]);
        }
        if step.Commit? {
          assert s'.db.effects[|s.db.effects|] == Effect(r, s.reqs[r].key.value, s.reqs[r].phase.row.hash, s.reqs[r].phase.response, s.reqs[r].phase.writes);
          assert HasEffect(s'.db, r, s.reqs[r].key.value, s.reqs[r].phase.response);
        }
      } else {
        PhaseStays(s.db, s'.db, r, s.reqs[r]);
      }
    }
  }

  lemma StepKeepsOwners(s: State, step: Step)
    requires Inv(s) && Enabled(s, step)
    ensures EffectsHaveOwners(Do(s, step))
  {
    if step.r in s.reqs {
      assert PhaseHolds(s.db, step.r, s.reqs[step.r]);
    }
  }

  lemma StepKeepsInv(s: State, step: Step)
    requires Inv(s)
    ensures Inv(Do(s, step))
  {
    if Enabled(s, step) {
      StepGrows(s, step);
      StepKeepsHolders(s, step);
      StepKeepsPhases(s, step);
      StepKeepsOwners(s, step);
    }
  }

  lemma {:induction false} RunKeepsInv(steps: seq<Step>)
    ensures Inv(Run(Init, steps))
  {
    if steps != [] {
      RunKeepsInv(steps[..|steps| - 1]);
      StepKeepsInv(Run(Init, steps[..|steps| - 1]), steps[|steps| - 1]);
    }
  }

  // ---- What the middleware promises, over every run ----

  /** No row is ever visible without its outcome. */
  lemma CommittedRowsCarryOutcomes(steps: seq<Step>, key: Key)
    requires key in Run(Init, steps).db.keys
    ensures Run(Init, steps).db.keys[key].outcome.Some?
  {
    RunKeepsInv(steps);
  }

  function ExecutionsOf(effects: seq<Effect>, key: Key): nat {
    if effects == [] then 0
    else ExecutionsOf(effects[..|effects| - 1], key) + if effects[|effects| - 1].key == key then 1 else 0
  }

  lemma {:induction false} CountedOnce(effects: seq<Effect>, key: Key)
    requires KeysDiffer(effects)
    ensures ExecutionsOf(effects, key) <= 1
    ensures ExecutionsOf(effects, key) == 1 <==> exists i :: 0 <= i < |effects| && effects[i].key == key
  {
    if effects != [] {
      var last := |effects| - 1;
      var front := effects[..last];
      CountedOnce(front, key);
      if effects[last].key == key {
        assert forall i :: 0 <= i < |front| ==> front[i] == effects[i];
        assert ExecutionsOf(front, key) == 0;
      } else if i :| 0 <= i < |effects| && effects[i].key == key {
        assert front[i].key == key;
      }
    }
  }

  /** Per key at most one handler execution ever commits: one exactly when the key has a row. */
  lemma OneExecutionPerKey(steps: seq<Step>, key: Key)
    ensures var db := Run(Init, steps).db;
            ExecutionsOf(db.effects, key) == if key in db.keys then 1 else 0
  {
    RunKeepsInv(steps);
    var db := Run(Init, steps).db;
    CountedOnce(db.effects, key);
    assert key in db.keys <==> RowHasEffect(db, key) by {
      if RowHasEffect(db, key) {
        var i :| 0 <= i < |db.effects| && db.effects[i].key == key;
        assert EffectRecorded(db, db.effects[i]);
      }
    }
  }

  /** The response a request's client was shown, if it was shown a handler's. */
  function Shown(req: Req): Option<Response> {
    match req.phase
    case Finished(FromHandler(response)) => Some(response)
    case Finished(Replayed(response)) => Some(response)
    case _ => None
  }

  /** A handler's response is shown only once the execution that gave it has committed under the same key and body. */
  lemma ShownOnlyAfterCommit(steps: seq<Step>, r: ReqId) returns (i: nat)
    requires r in Run(Init, steps).reqs && Shown(Run(Init, steps).reqs[r]).Some?
    ensures var s := Run(Init, steps);
            && i < |s.db.effects|
            && s.db.effects[i].response == Shown(s.reqs[r]).value
            && s.reqs[r].key == Some(s.db.effects[i].key)
            && s.reqs[r].hash == s.db.effects[i].hash
            && (s.reqs[r].phase.reply.FromHandler? <==> s.db.effects[i].req == r)
  {
    RunKeepsInv(steps);
    var s := Run(Init, steps);
    assert PhaseHolds(s.db, r, s.reqs[r]);
    if s.reqs[r].phase.reply.FromHandler? {
      i :| 0 <= i < |s.db.effects| && s.db.effects[i].req == r && s.db.effects[i].key == s.reqs[r].key.value;
    } else {
      assert RowHasEffect(s.db, s.reqs[r].key.value);
      i :| 0 <= i < |s.db.effects| && s.db.effects[i].key == s.reqs[r].key.value;
    }
    assert EffectRecorded(s.db, s.db.effects[i]);
  }

  /** Any two requests of one key that were shown a handler's response had the same body and were shown the same one. */
  lemma SameAnswerForAll(steps: seq<Step>, r1: ReqId, r2: ReqId)
    requires var s := Run(Init, steps);
             && r1 in s.reqs && r2 in s.reqs && s.reqs[r1].key == s.reqs[r2].key
             && Shown(s.reqs[r1]).Some? && Shown(s.reqs[r2]).Some?
    ensures var s := Run(Init, steps);
            s.reqs[r1].hash == s.reqs[r2].hash && Shown(s.reqs[r1]) == Shown(s.reqs[r2])
  {
    RunKeepsInv(steps);
    var s := Run(Init, steps);
    assert PhaseHolds(s.db, r1, s.reqs[r1]) && PhaseHolds(s.db, r2, s.reqs[r2]);
  }

  /**
   What a retry reads: the recorded response exactly when its body is the recorded one, and a refusal otherwise.
   The "committed with no recorded outcome" branch and the missing row are never met.
   */
  lemma RetryReads(steps: seq<Step>, r: ReqId)
    requires Enabled(Run(Init, steps), Read(r))
    ensures var s := Run(Init, steps);
            var key := s.reqs[r].key.value;
            && key in s.db.keys && s.db.keys[key].outcome.Some?
            && Do(s, Read(r)).db == s.db
            && Do(s, Read(r)).reqs[r].phase
               == Finished(if s.reqs[r].hash == s.db.keys[key].hash then Replayed(s.db.keys[key].outcome.value) else KeyReused)
  {
    RunKeepsInv(steps);
    var s := Run(Init, steps);
    assert PhaseHolds(s.db, r, s.reqs[r]);
  }

  lemma {:induction false} RunSplit(s: State, a: seq<Step>, b: seq<Step>)
    ensures Run(s, a + b) == Run(Run(s, a), b)
    decreases |b|
  {
    if b == [] {
      assert a + b == a;
    } else {
      assert (a + b)[..|a + b| - 1] == a + b[..|b| - 1];
      RunSplit(s, a, b[..|b| - 1]);
    }
  }

  /** Once recorded, a key's row and its execution stay as they are. */
  lemma {:induction false} RecordsAreFinal(a: seq<Step>, b: seq<Step>)
    ensures Grows(Run(Init, a).db, Run(Init, a + b).db)
    decreases |b|
  {
    if b == [] {
      assert a + b == a;
    } else {
      var front := b[..|b| - 1];
      assert (a + b)[..|a + b| - 1] == a + front;
      RecordsAreFinal(a, front);
      RunKeepsInv(a + front);
      StepGrows(Run(Init, a + front), b[|b| - 1]);
    }
  }

  // ---- What an execution carries ----

  /** The request ran its handler in this step: it gave this response and these writes, in a sound transaction. */
  predicate RanAt(steps: seq<Step>, j: nat, r: ReqId, response: Response, writes: seq<Write>)
    requires j < |steps|
  {
    steps[j] == Handle(r, response, writes, false) && Enabled(Run(Init, steps[..j]), steps[j])
  }

  ghost predicate RanIn(steps: seq<Step>, r: ReqId, response: Response, writes: seq<Write>) {
    exists j :: 0 <= j < |steps| && RanAt(steps, j, r, response, writes)
  }

  /** What a request carries through its transaction is what its handler gave. */
  ghost predicate CarriesRun(steps: seq<Step>, r: ReqId, phase: Phase) {
    match phase
    case Handled(_, response, writes, aborted) => !aborted ==> RanIn(steps, r, response, writes)
    case Recorded(_, response, writes) => RanIn(steps, r, response, writes)
    case _ => true
  }

  ghost predicate ExecutionsRan(steps: seq<Step>) {
    var s := Run(Init, steps);
    && (forall r :: r in s.reqs ==> CarriesRun(steps, r, s.reqs[r].phase))
    && (forall i :: 0 <= i < |s.db.effects| ==> RanIn(steps, s.db.effects[i].req, s.db.effects[i].response, s.db.effects[i].writes))
  }

  lemma RanStays(steps: seq<Step>, r: ReqId, response: Response, writes: seq<Write>)
    requires steps != [] && RanIn(steps[..|steps| - 1], r, response, writes)
    ensures RanIn(steps, r, response, writes)
  {
    var front := steps[..|steps| - 1];
    var j :| 0 <= j < |front| && RanAt(front, j, r, response, writes);
    assert front[..j] == steps[..j];
    assert RanAt(steps, j, r, response, writes);
  }

  lemma CarriesStays(steps: seq<Step>, r: ReqId, phase: Phase)
    requires steps != [] && CarriesRun(steps[..|steps| - 1], r, phase)
    ensures CarriesRun(steps, r, phase)
  {
    if phase.Handled? && !phase.aborted {
      RanStays(steps, r, phase.response, phase.writes);
    } else if phase.Recorded? {
      RanStays(steps, r, phase.response, phase.writes);
    }
  }

  /** What a step makes of a request's own phase. */
  lemma StepCarries(steps: seq<Step>)
    requires steps != [] && ExecutionsRan(steps[..|steps| - 1])
    requires Enabled(Run(Init, steps[..|steps| - 1]), steps[|steps| - 1])
    ensures var s', r := Run(Init, steps), steps[|steps| - 1].r; r in s'.reqs && CarriesRun(steps, r, s'.reqs[r].phase)
  {
    var front, last := steps[..|steps| - 1], steps[|steps| - 1];
    var s := Run(Init, front);
    if last.Handle? && !last.aborted {
      assert RanAt(steps, |steps| - 1, last.r, last.response, last.writes);
    } else if last.Record? {
      assert CarriesRun(front, last.r, s.reqs[last.r].phase);
      RanStays(steps, last.r, s.reqs[last.r].phase.response, s.reqs[last.r].phase.writes);
    }
  }

  lemma StepEffects(s: State, step: Step)
    requires Enabled(s, step)
    ensures var effects := Do(s, step).db.effects;
            if step.Commit? || step.CommitUnknown? then
              && s.reqs[step.r].phase.Recorded?
              && |effects| == |s.db.effects| + 1 && effects[..|s.db.effects|] == s.db.effects
              && var e := effects[|s.db.effects|];
                 e.req == step.r && e.response == s.reqs[step.r].phase.response && e.writes == s.reqs[step.r].phase.writes
            else effects == s.db.effects
  {
  }

  lemma {:induction false} RunExecutions(steps: seq<Step>)
    ensures ExecutionsRan(steps)
  {
    if steps != [] {
      var front, last := steps[..|steps| - 1], steps[|steps| - 1];
      var s, s' := Run(Init, front), Run(Init, steps);
      RunExecutions(front);
      forall r | r in s'.reqs ensures CarriesRun(steps, r, s'.reqs[r].phase) {
        if Enabled(s, last) && r == last.r {
          StepCarries(steps);
        } else {
          CarriesStays(steps, r, s.reqs[r].phase);
        }
      }
      forall i | 0 <= i < |s'.db.effects|
        ensures RanIn(steps, s'.db.effects[i].req, s'.db.effects[i].response, s'.db.effects[i].writes)
      {
        if Enabled(s, last) {
          StepEffects(s, last);
        }
        if i < |s.db.effects| {
          assert s'.db.effects[i] == s.db.effects[i];
          RanStays(steps, s.db.effects[i].req, s.db.effects[i].response, s.db.effects[i].writes);
        } else {
          assert CarriesRun(front, last.r, s.reqs[last.r].phase);
          RanStays(steps, last.r, s.reqs[last.r].phase.response, s.reqs[last.r].phase.writes);
        }
      }
    }
  }

  /** The domain writes a request has left, over all committed executions. */
  function WritesLeft(effects: seq<Effect>, r: ReqId): seq<Write> {
    if effects == [] then []
    else
      var front, last := effects[..|effects| - 1], effects[|effects| - 1];
      if last.req == r then WritesLeft(front, r) + last.writes else WritesLeft(front, r)
  }

  lemma {:induction false} WritesOfOne(effects: seq<Effect>, r: ReqId, i: nat)
    requires i < |effects| && effects[i].req == r && forall j :: 0 <= j < |effects| && effects[j].req == r ==> j == i
    ensures WritesLeft(effects, r) == effects[i].writes
  {
    var front := effects[..|effects| - 1];
    assert forall j :: 0 <= j < |front| ==> front[j] == effects[j];
    if i < |effects| - 1 {
      WritesOfOne(front, r, i);
    } else {
      WritesOfNone(front, r);
    }
  }

  lemma {:induction false} WritesOfNone(effects: seq<Effect>, r: ReqId)
    requires forall j :: 0 <= j < |effects| ==> effects[j].req != r
    ensures WritesLeft(effects, r) == []
  {
    if effects != [] {
      var front := effects[..|effects| - 1];
      assert forall j :: 0 <= j < |front| ==> front[j] == effects[j];
      WritesOfNone(front, r);
    }
  }

  /** The request's execution has committed. */
  predicate HasCommitted(effects: seq<Effect>, r: ReqId) {
    exists i :: 0 <= i < |effects| && effects[i].req == r
  }

  /**
   All or nothing, over every run: a request whose execution committed has left exactly the writes, with exactly the
   response on its key's row, that its own handler gave in a transaction that was not aborted.
   */
  lemma WritesCommitWithTheResponse(steps: seq<Step>, r: ReqId) returns (i: nat)
    requires HasCommitted(Run(Init, steps).db.effects, r)
    ensures var s := Run(Init, steps);
            && i < |s.db.effects| && s.db.effects[i].req == r
            && r in s.reqs && s.reqs[r].key.Some? && s.reqs[r].key.value in s.db.keys
            && s.db.keys[s.reqs[r].key.value].outcome == Some(s.db.effects[i].response)
            && RanIn(steps, r, s.db.effects[i].response, WritesLeft(s.db.effects, r))
  {
    var s := Run(Init, steps);
    RunKeepsInv(steps);
    RunExecutions(steps);
    i :| 0 <= i < |s.db.effects| && s.db.effects[i].req == r;
    assert EffectRecorded(s.db, s.db.effects[i]);
    forall j | 0 <= j < |s.db.effects| && s.db.effects[j].req == r ensures j == i {
      assert s.db.effects[j].key == s.db.effects[i].key;
    }
    WritesOfOne(s.db.effects, r, i);
  }

  /** And any other request has left no write. */
  lemma NothingWithoutCommit(steps: seq<Step>, r: ReqId)
    requires !HasCommitted(Run(Init, steps).db.effects, r)
    ensures WritesLeft(Run(Init, steps).db.effects, r) == []
  {
    WritesOfNone(Run(Init, steps).db.effects, r);
  }

  // ---- Attempts that roll back ----

  /** The steps of some requests that took effect, in order. */
  function StepsBy(steps: seq<Step>, keep: set<ReqId>): seq<Step> {
    if steps == [] then []
    else
      var front, last := steps[..|steps| - 1], steps[|steps| - 1];
      if last.r in keep && Enabled(Run(Init, front), last) then StepsBy(front, keep) + [last] else StepsBy(front, keep)
  }

  /** The same database, and the same standing of every request kept; the others never came. */
  ghost predicate SameWithout(s: State, t: State, keep: set<ReqId>) {
    && t.db == s.db
    && (forall r :: r in t.reqs <==> r in s.reqs && r in keep)
    && (forall r :: r in t.reqs ==> t.reqs[r] == s.reqs[r])
  }

  predicate OwnedBy(effects: seq<Effect>, keep: set<ReqId>) {
    forall i :: 0 <= i < |effects| ==> effects[i].req in keep
  }

  lemma KeptStep(s: State, t: State, step: Step, keep: set<ReqId>)
    requires SameWithout(s, t, keep) && step.r in keep && Enabled(s, step)
    ensures Enabled(t, step) && SameWithout(Do(s, step), Do(t, step), keep)
  {
  }

  lemma LastEffect(s: State, step: Step)
    ensures Enabled(s, step) && (step.Commit? || step.CommitUnknown?) ==>
              var effects := Do(s, step).db.effects; effects != [] && effects[|effects| - 1].req == step.r
  {
  }

  lemma DroppedStep(s: State, t: State, step: Step, keep: set<ReqId>)
    requires SameWithout(s, t, keep) && step.r !in keep && OwnedBy(Do(s, step).db.effects, keep)
    ensures SameWithout(Do(s, step), t, keep)
  {
    LastEffect(s, step);
  }

  /**
   Rolled-back attempts leave nothing: take out every request but some that include all whose execution committed, and
   the rest of the run is a run, ending in the same database and with the same replies. The panics, lost commits and
   deaths of the others, and the waiting they caused, have left no trace.
   */
  lemma {:induction false} RollbacksLeaveNothing(steps: seq<Step>, keep: set<ReqId>)
    requires OwnedBy(Run(Init, steps).db.effects, keep)
    ensures SameWithout(Run(Init, steps), Run(Init, StepsBy(steps, keep)), keep)
  {
    if steps != [] {
      var front, last := steps[..|steps| - 1], steps[|steps| - 1];
      var s := Run(Init, front);
      RunKeepsInv(front);
      StepGrows(s, last);
      assert OwnedBy(s.db.effects, keep) by {
        assert forall i :: 0 <= i < |s.db.effects| ==> Run(Init, steps).db.effects[i] == s.db.effects[i];
      }
      RollbacksLeaveNothing(front, keep);
      var kept := StepsBy(front, keep);
      if last.r !in keep {
        DroppedStep(s, Run(Init, kept), last, keep);
      } else if Enabled(s, last) {
        KeptStep(s, Run(Init, kept), last, keep);
        assert (kept + [last])[..|kept|] == kept;
      }
    }
  }

  // ---- Nothing waits for ever ----

  /** The step that moves a request on when nothing fails. */
  function OwnStep(s: State, r: ReqId): Step
    requires r in s.reqs
  {
    match s.reqs[r].phase
    case Arrived => Insert(r)
    case Inserted(_) => Handle(r, 0, [], false)
    case Handled(_, _, _, aborted) => if aborted then RecordFails(r) else Record(r)
    case Recorded(_, _, _) => Commit(r)
    case Committed(_) => SendReply(r)
    case Existing => Read(r)
    case Finished(_) => Die(r)
  }

  /** The work still ahead of a request; every step of a request shortens its own and nobody else's grows. */
  function Ahead(phase: Phase): nat {
    match phase
    case Arrived => 5
    case Inserted(_) => 4
    case Handled(_, _, _, _) => 3
    case Recorded(_, _, _) => 2
    case Committed(_) => 1
    case Existing => 1
    case Finished(_) => 0
  }

  lemma StepsShorten(s: State, step: Step)
    requires Enabled(s, step) && !step.Arrive?
    ensures Ahead(Do(s, step).reqs[step.r].phase) < Ahead(s.reqs[step.r].phase)
    ensures forall r :: r in s.reqs && r != step.r ==> Do(s, step).reqs[r] == s.reqs[r]
  {
  }

  /**
   No deadlock: while any request is unfinished, it can move on itself, or the request holding its key can, without
   anything failing.
   */
  lemma NeverStuck(steps: seq<Step>, r: ReqId) returns (next: Step)
    requires r in Run(Init, steps).reqs && !Run(Init, steps).reqs[r].phase.Finished?
    ensures Enabled(Run(Init, steps), next)
    ensures next.Insert? || next.Handle? || next.Record? || next.RecordFails? || next.Commit? || next.SendReply? || next.Read?
    ensures next.RecordFails? ==> Run(Init, steps).reqs[next.r].phase.aborted
    ensures next.r == r || (Run(Init, steps).reqs[r].key.Some? && Holds(Run(Init, steps).reqs[next.r], Run(Init, steps).reqs[r].key.value))
  {
    RunKeepsInv(steps);
    var s := Run(Init, steps);
    assert PhaseHolds(s.db, r, s.reqs[r]);
    if s.reqs[r].phase.Arrived? && Blocked(s, s.reqs[r].key.value) {
      var holder :| holder in s.reqs && Holds(s.reqs[holder], s.reqs[r].key.value);
      next := OwnStep(s, holder);
    } else {
      next := OwnStep(s, r);
    }
  }

  /** How many steps of a request took effect. */
  function TakenBy(steps: seq<Step>, r: ReqId): nat {
    if steps == [] then 0
    else
      var front := steps[..|steps| - 1];
      var last := steps[|steps| - 1];
      TakenBy(front, r) + if last.r == r && Enabled(Run(Init, front), last) then 1 else 0
  }

  /** However the requests interleave, each takes at most six steps: with NeverStuck, every request can be brought to its reply. */
  lemma {:induction false} RequestsAreShort(steps: seq<Step>, r: ReqId)
    ensures TakenBy(steps, r) + (if r in Run(Init, steps).reqs then Ahead(Run(Init, steps).reqs[r].phase) else 6) <= 6
  {
    if steps != [] {
      var s := Run(Init, steps[..|steps| - 1]);
      var last := steps[|steps| - 1];
      RequestsAreShort(steps[..|steps| - 1], r);
      if Enabled(s, last) && !last.Arrive? {
        StepsShorten(s, last);
      }
    }
  }

  // ---- When nothing fails ----

  predicate NoFault(step: Step) {
    match step
    case Handle(_, _, _, aborted) => !aborted
    case _ =>
      step.Arrive? || step.Insert? || step.Record? || step.Commit? || step.SendReply? || step.Read?
  }

  predicate Calm(req: Req) {
    && (req.phase.Finished? ==> req.phase.reply != ServerError && req.phase.reply != NoReply)
    && (req.phase.Handled? ==> !req.phase.aborted)
  }

  lemma {:induction false} NoFaultStaysCalm(steps: seq<Step>, r: ReqId)
    requires forall i :: 0 <= i < |steps| ==> NoFault(steps[i])
    requires r in Run(Init, steps).reqs
    ensures Calm(Run(Init, steps).reqs[r])
  {
    if steps != [] {
      var front := steps[..|steps| - 1];
      var s := Run(Init, front);
      var last := steps[|steps| - 1];
      if r in s.reqs {
        NoFaultStaysCalm(front, r);
      }
      if Enabled(s, last) && last == Read(r) {
        RetryReads(front, r);
      }
    }
  }

  /**
   When nothing fails, a finished request with a readable body has the one execution of its key answer for it: its
   own execution, the same response replayed for the same body, or a refusal for another body.
   */
  lemma FaultFreeAnswers(steps: seq<Step>, r: ReqId) returns (i: nat)
    requires forall i :: 0 <= i < |steps| ==> NoFault(steps[i])
    requires var s := Run(Init, steps);
             r in s.reqs && s.reqs[r].phase.Finished? && s.reqs[r].phase.reply != MissingKey && s.reqs[r].phase.reply != UnreadableBody
    ensures var s := Run(Init, steps);
            && i < |s.db.effects| && s.reqs[r].key == Some(s.db.effects[i].key)
            && s.reqs[r].phase.reply == (if s.db.effects[i].req == r then FromHandler(s.db.effects[i].response)
                                         else if s.db.effects[i].hash == s.reqs[r].hash then Replayed(s.db.effects[i].response)
                                         else KeyReused)
  {
    RunKeepsInv(steps);
    NoFaultStaysCalm(steps, r);
    var s := Run(Init, steps);
    assert PhaseHolds(s.db, r, s.reqs[r]);
    if Shown(s.reqs[r]).Some? {
      i := ShownOnlyAfterCommit(steps, r);
    } else {
      assert RowHasEffect(s.db, s.reqs[r].key.value);
      i :| 0 <= i < |s.db.effects| && s.db.effects[i].key == s.reqs[r].key.value;
      assert EffectRecorded(s.db, s.db.effects[i]);
    }
  }

  // ---- The middleware as written, serving one request ----

  datatype Handler = Panics | Answers(response: Response, writes: seq<Write>, aborted: bool)
  datatype CommitFate = Commits | Loses | CommitsButErrs

  /** What the surroundings do to one request. */
  datatype World = World(inserts: bool, handler: Handler, records: bool, commit: CommitFate, readOk: bool)

  /** The handler answers in a sound transaction, the outcome is recorded, and the commit takes effect. */
  predicate Succeeds(w: World) {
    w.handler.Answers? && !w.handler.aborted && w.records && !w.commit.Loses?
  }

  /** What a request that nobody races gets, and leaves. */
  function Served(db: Db, r: ReqId, key: Option<Key>, hash: Hash, readable: bool, w: World): (Db, Reply) {
    if key.None? then (db, MissingKey)
    else if !readable then (db, UnreadableBody)
    else if !w.inserts then (db, ServerError)
    else if key.value in db.keys then (db, if w.readOk then ReplayOf(db.keys, key.value, hash) else ServerError)
    else if w.handler.Panics? || w.handler.aborted || !w.records || w.commit.Loses? then (db, ServerError)
    else
      var row := KeyRow(hash, Some(w.handler.response));
      (CommitOf(db, r, key.value, row, w.handler.response, w.handler.writes),
       if w.commit.Commits? then FromHandler(w.handler.response) else ServerError)
  }

  class Middleware {
    var db: Db
    // The open transaction's uncommitted key row and domain writes.
    var pending: Option<(KeyRow, seq<Write>)>

    constructor ()
      ensures db == Db(map[], []) && pending == None
    {
      db, pending := Db(map[], []), None;
    }

    method Serve(r: ReqId, key: Option<Key>, hash: Hash, readable: bool, w: World) returns (reply: Reply)
      requires pending == None
      modifies this
      ensures (db, reply) == Served(old(db), r, key, hash, readable, w)
      ensures pending == None
      ensures key.None? ==> reply == MissingKey
      ensures key.Some? && !readable ==> reply == UnreadableBody
      ensures key.Some? && readable && w.inserts && key.value !in old(db).keys && Succeeds(w) ==>
                && db.effects == old(db).effects + [Effect(r, key.value, hash, w.handler.response, w.handler.writes)]
                && db.keys == old(db).keys[key.value := KeyRow(hash, Some(w.handler.response))]
                && reply == if w.commit.Commits? then FromHandler(w.handler.response) else ServerError
      ensures !(key.Some? && readable && w.inserts && key.value !in old(db).keys && Succeeds(w)) ==> db == old(db)
    {
      if key.None? {
        return MissingKey;
      }
      if !readable {
        return UnreadableBody;
      }
      if !w.inserts {
        return ServerError;
      }
      if key.value in db.keys {
        reply := ReplayCached(key.value, hash, w.readOk);
        return;
      }
      pending := Some((KeyRow(hash, None), []));
      reply := RunFresh(r, key.value, w);
    }

    method ReplayCached(key: Key, hash: Hash, readOk: bool) returns (reply: Reply)
      ensures reply == if readOk then ReplayOf(db.keys, key, hash) else ServerError
    {
      if !readOk || key !in db.keys {
        return ServerError;
      }
      var row := db.keys[key];
      if row.hash != hash {
        return KeyReused;
      }
      if row.outcome.None? {
        return ServerError;
      }
      return Replayed(row.outcome.value);
    }

    method RunFresh(r: ReqId, key: Key, w: World) returns (reply: Reply)
      requires pending.Some? && pending.value.0.outcome.None? && pending.value.1 == [] && key !in db.keys
      modifies this
      ensures (db, reply) == Served(old(db), r, Some(key), old(pending.value.0.hash), true, w.(inserts := true))
      ensures pending == None
      ensures if Succeeds(w)
              then && db.effects == old(db).effects + [Effect(r, key, old(pending.value.0.hash), w.handler.response, w.handler.writes)]
                   && db.keys == old(db).keys[key := KeyRow(old(pending.value.0.hash), Some(w.handler.response))]
              else db == old(db) && reply == ServerError
    {
      if w.handler.Panics? {
        pending := None;
        return ServerError;
      }
      pending := Some((pending.value.0, w.handler.writes));
      if w.handler.aborted || !w.records {
        pending := None;
        return ServerError;
      }
      pending := Some((pending.value.0.(outcome := Some(w.handler.response)), pending.value.1));
      if w.commit.Loses? {
        pending := None;
        return ServerError;
      }
      db := CommitOf(db, r, key, pending.value.0, w.handler.response, pending.value.1);
      pending := None;
      reply := if w.commit.Commits? then FromHandler(w.handler.response) else ServerError;
    }
  }

  /** The steps that serving one request alone amounts to. */
  function StepsOf(db: Db, r: ReqId, key: Option<Key>, hash: Hash, readable: bool, w: World): seq<Step> {
    [Arrive(r, key, hash, readable)]
    + if key.None? || !readable then []
      else if !w.inserts then [InsertFails(r)]
      else [Insert(r)] + if key.value in db.keys then [if w.readOk then Read(r) else ReadFails(r)] else FreshSteps(r, w)
  }

  function FreshSteps(r: ReqId, w: World): seq<Step> {
    if w.handler.Panics? then [HandlerPanics(r)]
    else
      [Handle(r, w.handler.response, w.handler.writes, w.handler.aborted)]
      + if w.handler.aborted || !w.records then [RecordFails(r)] else [Record(r)] + LastSteps(r, w.commit)
  }

  function LastSteps(r: ReqId, commit: CommitFate): seq<Step> {
    match commit
    case Commits => [Commit(r), SendReply(r)]
    case Loses => [CommitLost(r)]
    case CommitsButErrs => [CommitUnknown(r)]
  }

  lemma RunFirst(s: State, step: Step, rest: seq<Step>)
    ensures Run(s, [step] + rest) == Run(Do(s, step), rest)
  {
    RunSplit(s, [step], rest);
    RunOne(s, step);
  }

  lemma RunOne(s: State, step: Step)
    ensures Run(s, [step]) == Do(s, step)
  {
    assert [step][..0] == [];
  }

  function WithPhase(s: State, r: ReqId, phase: Phase): State
    requires r in s.reqs
  {
    s.(reqs := s.reqs[r := s.reqs[r].(phase := phase)])
  }

  lemma HandleStep(s: State, r: ReqId, response: Response, writes: seq<Write>, aborted: bool)
    requires r in s.reqs && s.reqs[r].phase.Inserted?
    ensures Do(s, Handle(r, response, writes, aborted)) == WithPhase(s, r, Handled(s.reqs[r].phase.row, response, writes, aborted))
  {
  }

  /** The steps end the request with this database and reply, and touch no other request. */
  predicate EndsIn(s: State, steps: seq<Step>, r: ReqId, key: Option<Key>, hash: Hash, out: (Db, Reply)) {
    Run(s, steps) == State(out.0, s.reqs[r := Req(key, hash, Finished(out.1))])
  }

  lemma OneStepEnds(s: State, step: Step, reply: Reply)
    requires step.r in s.reqs && Enabled(s, step) && NewDb(s, step) == s.db && NewPhase(s, step) == Finished(reply)
    ensures EndsIn(s, [step], step.r, s.reqs[step.r].key, s.reqs[step.r].hash, (s.db, reply))
  {
    RunOne(s, step);
  }

  lemma CommitStep(s: State, r: ReqId, key: Key, hash: Hash, response: Response, writes: seq<Write>)
    requires r in s.reqs
    requires s.reqs[r] == Req(Some(key), hash, Recorded(KeyRow(hash, Some(response)), response, writes))
    ensures Do(s, Commit(r)) == State(CommitOf(s.db, r, key, KeyRow(hash, Some(response)), response, writes),
                                      s.reqs[r := Req(Some(key), hash, Committed(response))])
  {
  }

  lemma CommitThenReply(s: State, r: ReqId, key: Key, hash: Hash, response: Response, writes: seq<Write>)
    requires r in s.reqs
    requires s.reqs[r] == Req(Some(key), hash, Recorded(KeyRow(hash, Some(response)), response, writes))
    ensures EndsIn(s, [Commit(r), SendReply(r)], r, Some(key), hash,
                   (CommitOf(s.db, r, key, KeyRow(hash, Some(response)), response, writes), FromHandler(response)))
  {
    var s1 := Do(s, Commit(r));
    CommitStep(s, r, key, hash, response, writes);
    OneStepEnds(s1, SendReply(r), FromHandler(response));
    RunFirst(s, Commit(r), [SendReply(r)]);
    assert [Commit(r), SendReply(r)] == [Commit(r)] + [SendReply(r)];
  }

  lemma CommitIsARun(s: State, r: ReqId, key: Key, hash: Hash, response: Response, writes: seq<Write>, commit: CommitFate)
    requires r in s.reqs
    requires s.reqs[r] == Req(Some(key), hash, Recorded(KeyRow(hash, Some(response)), response, writes))
    ensures EndsIn(s, LastSteps(r, commit), r, Some(key), hash,
                   (if commit.Loses? then s.db else CommitOf(s.db, r, key, KeyRow(hash, Some(response)), response, writes),
                    if commit.Commits? then FromHandler(response) else ServerError))
  {
    match commit
    case Commits =>
      CommitThenReply(s, r, key, hash, response, writes);
    case Loses => OneStepEnds(s, CommitLost(r), ServerError);
    case CommitsButErrs => RunOne(s, CommitUnknown(r));
  }

  /** A first step that only moves the request's phase, then the rest. */
  lemma ThenEnds(s: State, step: Step, phase: Phase, tail: seq<Step>, key: Option<Key>, hash: Hash, out: (Db, Reply))
    requires step.r in s.reqs && Do(s, step) == WithPhase(s, step.r, phase)
    requires EndsIn(WithPhase(s, step.r, phase), tail, step.r, key, hash, out)
    ensures EndsIn(s, [step] + tail, step.r, key, hash, out)
  {
    RunFirst(s, step, tail);
  }

  lemma HandledIsARun(s: State, r: ReqId, key: Key, hash: Hash, w: World)
    requires w.handler.Answers? && r in s.reqs
    requires s.reqs[r] == Req(Some(key), hash, Handled(KeyRow(hash, None), w.handler.response, w.handler.writes, w.handler.aborted))
    ensures EndsIn(s, if w.handler.aborted || !w.records then [RecordFails(r)] else [Record(r)] + LastSteps(r, w.commit),
                   r, Some(key), hash,
                   if w.handler.aborted || !w.records || w.commit.Loses? then (s.db, ServerError)
                   else
                     (CommitOf(s.db, r, key, KeyRow(hash, Some(w.handler.response)), w.handler.response, w.handler.writes),
                      if w.commit.Commits? then FromHandler(w.handler.response) else ServerError))
  {
    if w.handler.aborted || !w.records {
      OneStepEnds(s, RecordFails(r), ServerError);
    } else {
      var phase := Recorded(KeyRow(hash, Some(w.handler.response)), w.handler.response, w.handler.writes);
      RecordStep(s, r);
      CommitIsARun(WithPhase(s, r, phase), r, key, hash, w.handler.response, w.handler.writes, w.commit);
      ThenEnds(s, Record(r), phase, LastSteps(r, w.commit), Some(key), hash,
               (if w.commit.Loses? then s.db
                else CommitOf(s.db, r, key, KeyRow(hash, Some(w.handler.response)), w.handler.response, w.handler.writes),
                if w.commit.Commits? then FromHandler(w.handler.response) else ServerError));
    }
  }

  lemma FreshIsARun(s: State, r: ReqId, key: Key, hash: Hash, w: World)
    requires r in s.reqs && s.reqs[r] == Req(Some(key), hash, Inserted(KeyRow(hash, None))) && key !in s.db.keys
    ensures EndsIn(s, FreshSteps(r, w), r, Some(key), hash, Served(s.db, r, Some(key), hash, true, w.(inserts := true)))
  {
    if w.handler.Panics? {
      OneStepEnds(s, HandlerPanics(r), ServerError);
    } else {
      var handle := Handle(r, w.handler.response, w.handler.writes, w.handler.aborted);
      var phase := Handled(KeyRow(hash, None), w.handler.response, w.handler.writes, w.handler.aborted);
      HandleStep(s, r, w.handler.response, w.handler.writes, w.handler.aborted);
      HandledIsARun(WithPhase(s, r, phase), r, key, hash, w);
      ThenEnds(s, handle, phase, FreshSteps(r, w)[1..], Some(key), hash,
               Served(s.db, r, Some(key), hash, true, w.(inserts := true)));
      assert FreshSteps(r, w) == [handle] + FreshSteps(r, w)[1..];
    }
  }

  lemma RecordStep(s: State, r: ReqId)
    requires r in s.reqs && s.reqs[r].phase.Handled? && !s.reqs[r].phase.aborted
    ensures var p := s.reqs[r].phase;
            Do(s, Record(r)) == WithPhase(s, r, Recorded(p.row.(outcome := Some(p.response)), p.response, p.writes))
  {
  }

  lemma InsertFailsIsARun(s: State, r: ReqId, key: Option<Key>, hash: Hash)
    requires r !in s.reqs && key.Some?
    ensures EndsIn(s, [Arrive(r, key, hash, true)] + [InsertFails(r)], r, key, hash, (s.db, ServerError))
  {
    RunFirst(s, Arrive(r, key, hash, true), [InsertFails(r)]);
    OneStepEnds(Do(s, Arrive(r, key, hash, true)), InsertFails(r), ServerError);
  }

  lemma RefusedIsARun(s: State, r: ReqId, key: Option<Key>, hash: Hash, readable: bool)
    requires r !in s.reqs && (key.None? || !readable)
    ensures EndsIn(s, [Arrive(r, key, hash, readable)], r, key, hash, (s.db, if key.None? then MissingKey else UnreadableBody))
  {
    RunOne(s, Arrive(r, key, hash, readable));
  }

  lemma InsertedIsARun(s: State, r: ReqId, key: Key, hash: Hash, tail: seq<Step>, out: (Db, Reply))
    requires r !in s.reqs && !Blocked(s, key)
    requires EndsIn(AfterInsert(s, r, key, hash), tail, r, Some(key), hash, out)
    ensures EndsIn(s, [Arrive(r, Some(key), hash, true)] + ([Insert(r)] + tail), r, Some(key), hash, out)
  {
    RunFirst(s, Arrive(r, Some(key), hash, true), [Insert(r)] + tail);
    RunFirst(Do(s, Arrive(r, Some(key), hash, true)), Insert(r), tail);
    InsertedAlone(s, r, key, hash);
  }

  /** Whenever nobody holds the key, serving a request in one go is a run of the protocol, with the same reply and rows. */
  lemma ServingAloneIsARun(s: State, r: ReqId, key: Option<Key>, hash: Hash, readable: bool, w: World)
    requires r !in s.reqs && (key.Some? ==> !Blocked(s, key.value))
    ensures EndsIn(s, StepsOf(s.db, r, key, hash, readable, w), r, key, hash, Served(s.db, r, key, hash, readable, w))
  {
    var out := Served(s.db, r, key, hash, readable, w);
    if key.None? || !readable {
      RefusedIsARun(s, r, key, hash, readable);
      assert [Arrive(r, key, hash, readable)] + [] == [Arrive(r, key, hash, readable)];
    } else if !w.inserts {
      InsertFailsIsARun(s, r, key, hash);
    } else {
      var s2 := AfterInsert(s, r, key.value, hash);
      if key.value in s.db.keys {
        var read := if w.readOk then Read(r) else ReadFails(r);
        OneStepEnds(s2, read, out.1);
        InsertedIsARun(s, r, key.value, hash, [read], out);
      } else {
        FreshIsARun(s2, r, key.value, hash, w);
        InsertedIsARun(s, r, key.value, hash, FreshSteps(r, w), out);
      }
    }
  }

  function AfterInsert(s: State, r: ReqId, key: Key, hash: Hash): State {
    s.(reqs := s.reqs[r := Req(Some(key), hash, if key in s.db.keys then Existing else Inserted(KeyRow(hash, None)))])
  }

  lemma InsertedAlone(s: State, r: ReqId, key: Key, hash: Hash)
    requires r !in s.reqs && !Blocked(s, key)
    ensures Do(Do(s, Arrive(r, Some(key), hash, true)), Insert(r))
            == AfterInsert(s, r, key, hash)
  {
    NotBlockedAfterArrival(s, Arrive(r, Some(key), hash, true), key);
  }

  lemma NotBlockedAfterArrival(s: State, arrive: Step, key: Key)
    requires arrive.Arrive? && !Blocked(s, key)
    ensures !Blocked(Do(s, arrive), key)
  {
  }
}

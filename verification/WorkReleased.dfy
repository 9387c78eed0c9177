/**
 The WorkReleased consumer (internal/adapters/inbound/kafka/consumer.go): the event id is claimed once, with its own
 retries; the claimed event is then handled in up to three attempts; an error at the end goes to the dead-letter topic.
 */
module WorkReleased {
  import opened Prelude

  type EventId = nat
  // The payload's CPT, work unit and hints.
  type Data = nat
  // A catalogue definition.
  type Def = nat

  /** A consumed message, decoded: not a CloudEvent, another type, a bad payload, or released work. */
  datatype Message = NotCloudEvent | OtherType | BadData | Work(id: EventId, data: Data)

  /** A claim attempt: it answers, fails without effect, or fails although the id was recorded. */
  datatype Mark = Answers | MarkFails | RecordsButErrs

  /** An attempt at the work: the path is unknown, or the task's scope commits, rolls back, or commits and still errs. */
  datatype Attempt = UnknownPath | Commits(def: Def) | RollsBack(def: Def) | CommitsButErrs(def: Def)

  datatype Sink = NoSink | SinkFails | SinkStores

  /**
   Where the process dies during a delivery, if it gets there: after so many claims without an answer, after so many
   attempts at the work without success, or on the way to the dead-letter topic. It is restarted, and reads on.
   */
  datatype Death = Survives | DiesClaiming(claims: nat) | DiesWorking(attempts: nat) | DiesHandingOver

  /**
   One delivery of a message, with what its attempts will meet, and after how many claims and how many attempts at the
   work the context is cancelled.
   */
  datatype Delivery = Delivery(
    msg: Message, marks: nat -> Mark, attempts: nat -> Attempt, sink: Sink, claimsAllowed: nat, attemptsAllowed: nat, death: Death)

  datatype Task = Task(event: EventId, def: Def, data: Data)

  /** `failed` lists the messages handed to the dead-letter path, `dead` those that arrived there. */
  datatype Db = Db(seen: set<EventId>, tasks: seq<Task>, failed: seq<Message>, dead: seq<Message>)

  const Empty: Db := Db({}, [], [], [])

  const MaxHandlerAttempts: nat := 3

  /** The attempts a retry loop makes at most: always one, and no further one once the context is cancelled. */
  function Granted(allowed: nat): (n: nat)
    ensures 1 <= n <= MaxHandlerAttempts
  {
    if allowed < 1 then 1 else if allowed > MaxHandlerAttempts then MaxHandlerAttempts else allowed
  }

  function Min(a: nat, b: nat): nat {
    if a < b then a else b
  }

  /** The claims a delivery makes at most, death considered. */
  function ClaimLimit(d: Delivery): nat {
    if d.death.DiesClaiming? then Min(d.death.claims, Granted(d.claimsAllowed)) else Granted(d.claimsAllowed)
  }

  /** The attempts at the work it makes at most. */
  function WorkLimit(d: Delivery): nat {
    if d.death.DiesWorking? then Min(d.death.attempts, Granted(d.attemptsAllowed)) else Granted(d.attemptsAllowed)
  }

  /** Whether the id is new, once some claim attempt answers; None when every attempt failed. */
  function Claimed(seen: set<EventId>, id: EventId, marks: nat -> Mark, from: nat, limit: nat): (set<EventId>, Option<bool>)
    decreases limit - from
  {
    if from >= limit then (seen, None)
    else match marks(from)
      case Answers => (seen + {id}, Some(id !in seen))
      case MarkFails => Claimed(seen, id, marks, from + 1, limit)
      case RecordsButErrs => Claimed(seen + {id}, id, marks, from + 1, limit)
  }

  /** The tasks the remaining attempts create, and whether one of them succeeded. */
  function Handled(id: EventId, data: Data, attempts: nat -> Attempt, from: nat, limit: nat): (seq<Task>, bool)
    decreases limit - from
  {
    if from >= limit then ([], false)
    else match attempts(from)
      case UnknownPath => Handled(id, data, attempts, from + 1, limit)
      case RollsBack(_) => Handled(id, data, attempts, from + 1, limit)
      case Commits(def) => ([Task(id, def, data)], true)
      case CommitsButErrs(def) =>
        var (more, ok) := Handled(id, data, attempts, from + 1, limit);
        ([Task(id, def, data)] + more, ok)
  }

  /** How a delivery's handling ends: without an error, with one, or with the process. */
  datatype Ending = Acked | GivenUp | Died

  /** handleMessageWithRetry: the database after it, and how it ended. */
  function HandleResult(db: Db, d: Delivery): (Db, Ending) {
    match d.msg
    case NotCloudEvent => (db, GivenUp)
    case BadData => (db, GivenUp)
    case OtherType => (db, Acked)
    case Work(id, data) =>
      var (seen, isNew) := Claimed(db.seen, id, d.marks, 0, ClaimLimit(d));
      if isNew.None? then (db.(seen := seen), if ClaimLimit(d) < Granted(d.claimsAllowed) then Died else GivenUp)
      else if !isNew.value then (db.(seen := seen), Acked)
      else
        var (tasks, ok) := Handled(id, data, d.attempts, 0, WorkLimit(d));
        (db.(seen := seen, tasks := db.tasks + tasks),
         if ok then Acked else if WorkLimit(d) < Granted(d.attemptsAllowed) then Died else GivenUp)
  }

  /** Given up, and alive to hand the message over. */
  predicate HandsOver(ending: Ending, d: Delivery) {
    ending == GivenUp && d.death != DiesHandingOver
  }

  /** One turn of the read loop. */
  function Consumed(db: Db, d: Delivery): Db {
    var (handled, ending) := HandleResult(db, d);
    if !HandsOver(ending, d) then handled
    else handled.(failed := handled.failed + [d.msg],
                  dead := if d.sink == SinkStores then handled.dead + [d.msg] else handled.dead)
  }

  class Consumer {
    var db: Db

    constructor ()
      ensures db == Empty
    {
      db := Empty;
    }

    /** The read loop, restarted after a death. */
    method Run(deliveries: seq<Delivery>)
      modifies this
      ensures db == After(old(db), deliveries)
    {
      for i := 0 to |deliveries|
        invariant db == After(old(db), deliveries[..i])
      {
        assert deliveries[..i + 1][..i] == deliveries[..i];
        var ending := HandleMessageWithRetry(deliveries[i]);
        if HandsOver(ending, deliveries[i]) {
          SendToDeadLetter(deliveries[i]);
        }
      }
      assert deliveries[..|deliveries|] == deliveries;
    }

    method SendToDeadLetter(d: Delivery)
      modifies this
      ensures db == old(db).(failed := old(db).failed + [d.msg],
                             dead := if d.sink == SinkStores then old(db).dead + [d.msg] else old(db).dead)
    {
      db := db.(failed := db.failed + [d.msg]);
      if d.sink != SinkStores {
        return;
      }
      db := db.(dead := db.dead + [d.msg]);
    }

    method HandleMessageWithRetry(d: Delivery) returns (ending: Ending)
      modifies this
      ensures (db, ending) == HandleResult(old(db), d)
    {
      match d.msg {
        case NotCloudEvent => return GivenUp;
        case BadData => return GivenUp;
        case OtherType => return Acked;
        case Work(id, data) =>
          var isNew := MarkProcessedWithRetry(id, d.marks, ClaimLimit(d));
          if isNew.None? {
            return if ClaimLimit(d) < Granted(d.claimsAllowed) then Died else GivenUp;
          }
          if !isNew.value {
            return Acked;
          }
          var ok := HandleClaimedEvent(id, data, d.attempts, WorkLimit(d));
          ending := if ok then Acked else if WorkLimit(d) < Granted(d.attemptsAllowed) then Died else GivenUp;
      }
    }

    method MarkProcessedWithRetry(id: EventId, marks: nat -> Mark, limit: nat) returns (isNew: Option<bool>)
      modifies this
      ensures (db.seen, isNew) == Claimed(old(db).seen, id, marks, 0, limit)
      ensures db == old(db).(seen := db.seen)
    {
      for k := 0 to limit
        invariant db == old(db).(seen := db.seen)
        invariant Claimed(db.seen, id, marks, k, limit) == Claimed(old(db).seen, id, marks, 0, limit)
      {
        var mark := marks(k);
        if mark.Answers? {
          isNew := Some(id !in db.seen);
          db := db.(seen := db.seen + {id});
          return;
        }
        if mark.RecordsButErrs? {
          db := db.(seen := db.seen + {id});
        }
      }
      return None;
    }

    method HandleClaimedEvent(id: EventId, data: Data, attempts: nat -> Attempt, limit: nat) returns (ok: bool)
      modifies this
      ensures ok == Handled(id, data, attempts, 0, limit).1
      ensures db == old(db).(tasks := old(db).tasks + Handled(id, data, attempts, 0, limit).0)
    {
      for k := 0 to limit
        invariant db == old(db).(tasks := db.tasks)
        invariant db.tasks + Handled(id, data, attempts, k, limit).0 == old(db).tasks + Handled(id, data, attempts, 0, limit).0
        invariant Handled(id, data, attempts, k, limit).1 == Handled(id, data, attempts, 0, limit).1
      {
        var attempt := attempts(k);
        if attempt.Commits? || attempt.CommitsButErrs? {
          db := db.(tasks := db.tasks + [Task(id, attempt.def, data)]);
          if attempt.Commits? {
            assert Handled(id, data, attempts, k, limit).0 == [Task(id, attempt.def, data)];
            return true;
          }
          ghost var rest := Handled(id, data, attempts, k + 1, limit).0;
          assert db.tasks + rest == db.tasks[..|db.tasks| - 1] + ([Task(id, attempt.def, data)] + rest);
        }
      }
      assert db.tasks + [] == db.tasks;
      return false;
    }
  }

  function After(db: Db, ds: seq<Delivery>): Db
    decreases |ds|
  {
    if |ds| == 0 then db else Consumed(After(db, ds[..|ds| - 1]), ds[|ds| - 1])
  }

  // ---- One delivery, for any limit on the attempts ----

  /** An attempt is made only while none before it succeeded. */
  predicate Reached(attempts: nat -> Attempt, from: nat, k: nat) {
    from <= k && forall j: nat :: from <= j < k ==> !attempts(j).Commits?
  }

  predicate LeavesTask(a: Attempt) {
    a.Commits? || a.CommitsButErrs?
  }

  /** The claimed event succeeds exactly when one of its attempts commits. */
  lemma {:induction false} SucceedsExactlyWhen(id: EventId, data: Data, attempts: nat -> Attempt, from: nat, limit: nat)
    ensures Handled(id, data, attempts, from, limit).1 <==> exists k: nat :: from <= k < limit && attempts(k).Commits?
    decreases limit - from
  {
    if from < limit && !attempts(from).Commits? {
      SucceedsExactlyWhen(id, data, attempts, from + 1, limit);
    }
  }

  predicate NoAmbiguousCommit(attempts: nat -> Attempt, limit: nat) {
    forall k: nat :: k < limit ==> !attempts(k).CommitsButErrs?
  }

  /** With no ambiguous commit the claimed event ends in exactly one task, or in an error and none. */
  lemma {:induction false} OneTaskOrError(id: EventId, data: Data, attempts: nat -> Attempt, from: nat, limit: nat)
    requires NoAmbiguousCommit(attempts, limit)
    ensures var (tasks, ok) := Handled(id, data, attempts, from, limit);
            && |tasks| == (if ok then 1 else 0)
            && forall i :: 0 <= i < |tasks| ==> tasks[i].event == id && tasks[i].data == data
    decreases limit - from
  {
    if from < limit {
      OneTaskOrError(id, data, attempts, from + 1, limit);
    }
  }

  /** A task is left exactly when some attempt that was reached leaves one. */
  lemma {:induction false} SomeTaskExactlyWhen(id: EventId, data: Data, attempts: nat -> Attempt, from: nat, limit: nat)
    ensures Handled(id, data, attempts, from, limit).0 != []
            <==> exists k: nat :: k < limit && Reached(attempts, from, k) && LeavesTask(attempts(k))
    decreases limit - from
  {
    if from < limit {
      SomeTaskExactlyWhen(id, data, attempts, from + 1, limit);
      if LeavesTask(attempts(from)) {
        assert Reached(attempts, from, from);
      } else {
        forall k: nat | k != from ensures Reached(attempts, from, k) <==> Reached(attempts, from + 1, k) {
        }
      }
    }
  }

  /** Two tasks for one event take a commit that errs, and a retry that commits again. */
  lemma {:induction false} DuplicatesExactlyWhen(id: EventId, data: Data, attempts: nat -> Attempt, from: nat, limit: nat)
    ensures |Handled(id, data, attempts, from, limit).0| >= 2
            <==> exists j: nat, k: nat ::
                   from <= j < k < limit && Reached(attempts, from, k) && attempts(j).CommitsButErrs? && LeavesTask(attempts(k))
    decreases limit - from
  {
    if from < limit && !attempts(from).Commits? {
      DuplicatesExactlyWhen(id, data, attempts, from + 1, limit);
      SomeTaskExactlyWhen(id, data, attempts, from + 1, limit);
      forall k: nat | k != from ensures Reached(attempts, from, k) <==> Reached(attempts, from + 1, k) {
      }
    }
  }

  /** The k-th claim attempt is the first to answer. */
  predicate FirstAnswer(marks: nat -> Mark, from: nat, k: nat) {
    from <= k && marks(k).Answers? && forall i: nat :: from <= i < k ==> !marks(i).Answers?
  }

  /** The id is on record when the k-th attempt runs: it was before, or an attempt in between recorded it and erred. */
  predicate OnRecord(seen: set<EventId>, id: EventId, marks: nat -> Mark, from: nat, k: nat) {
    id in seen || exists j: nat :: from <= j < k && marks(j).RecordsButErrs?
  }

  /** "Already processed" is the answer exactly when the id is on record by the time an attempt answers. */
  lemma {:induction false} AnsweredOld(seen: set<EventId>, id: EventId, marks: nat -> Mark, from: nat, limit: nat)
    ensures Claimed(seen, id, marks, from, limit).1 == Some(false)
            <==> exists k: nat :: k < limit && FirstAnswer(marks, from, k) && OnRecord(seen, id, marks, from, k)
    decreases limit - from
  {
    if from < limit {
      if marks(from).Answers? {
        assert FirstAnswer(marks, from, from);
      } else {
        var next, seen' := from + 1, if marks(from).RecordsButErrs? then seen + {id} else seen;
        AnsweredOld(seen', id, marks, next, limit);
        assert Claimed(seen, id, marks, from, limit).1 == Claimed(seen', id, marks, next, limit).1;
        forall k: nat | FirstAnswer(marks, from, k) || FirstAnswer(marks, next, k)
          ensures FirstAnswer(marks, from, k) && FirstAnswer(marks, next, k)
          ensures OnRecord(seen, id, marks, from, k) <==> OnRecord(seen', id, marks, next, k)
        {
          assert k > from;
        }
      }
    }
  }

  /** An attempt answered that the id is already processed, because an earlier one of this delivery recorded it and erred. */
  predicate SelfBlocked(d: Delivery) {
    d.msg.Work? && exists k: nat :: k < ClaimLimit(d) && FirstAnswer(d.marks, 0, k) && OnRecord({}, d.msg.id, d.marks, 0, k)
  }

  /** A first delivery is lost - no error, and no task - exactly when it is blocked by its own record. */
  lemma LostExactlyWhen(db: Db, d: Delivery)
    requires d.msg.Work? && d.msg.id !in db.seen
    ensures var (db', ending) := HandleResult(db, d);
            ending == Acked && db'.tasks == db.tasks <==> SelfBlocked(d)
  {
    var id, limit := d.msg.id, WorkLimit(d);
    BlockedExactlyWhen(db.seen, d);
    SomeTaskWhenDone(id, d.msg.data, d.attempts, limit);
    var (tasks, done) := Handled(id, d.msg.data, d.attempts, 0, limit);
    assert |db.tasks + tasks| == |db.tasks| + |tasks|;
  }

  lemma BlockedExactlyWhen(seen: set<EventId>, d: Delivery)
    requires d.msg.Work? && d.msg.id !in seen
    ensures Claimed(seen, d.msg.id, d.marks, 0, ClaimLimit(d)).1 == Some(false) <==> SelfBlocked(d)
  {
    AnsweredOld(seen, d.msg.id, d.marks, 0, ClaimLimit(d));
    assert forall k: nat :: OnRecord(seen, d.msg.id, d.marks, 0, k) <==> OnRecord({}, d.msg.id, d.marks, 0, k);
  }

  lemma SomeTaskWhenDone(id: EventId, data: Data, attempts: nat -> Attempt, limit: nat)
    ensures Handled(id, data, attempts, 0, limit).1 ==> Handled(id, data, attempts, 0, limit).0 != []
  {
    SucceedsExactlyWhen(id, data, attempts, 0, limit);
    SomeTaskExactlyWhen(id, data, attempts, 0, limit);
    if Handled(id, data, attempts, 0, limit).1 {
      var k := FirstCommit(attempts, limit);
    }
  }

  lemma FirstCommit(attempts: nat -> Attempt, limit: nat) returns (k: nat)
    requires exists i: nat :: i < limit && attempts(i).Commits?
    ensures k < limit && attempts(k).Commits? && Reached(attempts, 0, k)
  {
    k := 0;
    while !attempts(k).Commits?
      invariant k < limit && forall j: nat :: j < k ==> !attempts(j).Commits?
      decreases limit - k
    {
      k := k + 1;
    }
  }

  // ---- How many attempts ----

  /** The attempts a loop gets: three, fewer when the context is cancelled earlier, but one at least. */
  predicate AttemptsAre(n: nat, allowed: nat) {
    n == if allowed >= 3 then 3 else if allowed == 0 then 1 else allowed
  }

  /** Those it makes: a death may come first. */
  predicate MadeAre(made: nat, granted: nat, diesAfter: Option<nat>) {
    made == if diesAfter.Some? && diesAfter.value < granted then diesAfter.value else granted
  }

  predicate SomeAnswer(d: Delivery, claims: nat) {
    exists k: nat :: k < claims && d.marks(k).Answers?
  }

  /** A claim attempt recorded the id and erred, and a later one answered. */
  predicate OwnRecordAnswered(d: Delivery, claims: nat) {
    exists j: nat, k: nat :: j < k < claims && d.marks(j).RecordsButErrs? && FirstAnswer(d.marks, 0, k)
  }

  predicate SomeCommit(d: Delivery, tries: nat) {
    exists k: nat :: k < tries && d.attempts(k).Commits?
  }

  /**
   How the first delivery of an event ends, in numbers: three attempts at the claim and three at the work, as far as
   cancellation and death leave them.
   */
  lemma FirstDeliveryEnds(db: Db, d: Delivery, claims: nat, claimsMade: nat, tries: nat, triesMade: nat)
    requires d.msg.Work? && d.msg.id !in db.seen
    requires AttemptsAre(claims, d.claimsAllowed) && AttemptsAre(tries, d.attemptsAllowed)
    requires MadeAre(claimsMade, claims, if d.death.DiesClaiming? then Some(d.death.claims) else None)
    requires MadeAre(triesMade, tries, if d.death.DiesWorking? then Some(d.death.attempts) else None)
    ensures HandleResult(db, d).1
            == if !SomeAnswer(d, claimsMade) then if claimsMade < claims then Died else GivenUp
               else if OwnRecordAnswered(d, claimsMade) || SomeCommit(d, triesMade) then Acked
               else if triesMade < tries then Died
               else GivenUp
  {
    var id, limit := d.msg.id, ClaimLimit(d);
    assert limit == claimsMade && WorkLimit(d) == triesMade;
    AnswerComes(db.seen, id, d.marks, 0, limit);
    AnsweredOld(db.seen, id, d.marks, 0, limit);
    SucceedsExactlyWhen(id, d.msg.data, d.attempts, 0, triesMade);
  }

  // ---- All deliveries ----

  function TasksOf(tasks: seq<Task>, id: EventId): nat {
    if tasks == [] then 0 else TasksOf(tasks[..|tasks| - 1], id) + if tasks[|tasks| - 1].event == id then 1 else 0
  }

  lemma {:induction false} TasksOfAppend(a: seq<Task>, b: seq<Task>, id: EventId)
    ensures TasksOf(a + b, id) == TasksOf(a, id) + TasksOf(b, id)
    decreases |b|
  {
    if b == [] {
      assert a + b == a;
    } else {
      assert (a + b)[..|a + b| - 1] == a + b[..|b| - 1];
      TasksOfAppend(a, b[..|b| - 1], id);
    }
  }

  /** The delivery claims the event: its id was new, and the claim was answered so. */
  predicate Claims(db: Db, d: Delivery, id: EventId) {
    d.msg.Work? && d.msg.id == id && Claimed(db.seen, id, d.marks, 0, ClaimLimit(d)).1 == Some(true)
  }

  function ClaimsOf(ds: seq<Delivery>, id: EventId): nat
    decreases |ds|
  {
    if |ds| == 0 then 0
    else ClaimsOf(ds[..|ds| - 1], id) + if Claims(After(Empty, ds[..|ds| - 1]), ds[|ds| - 1], id) then 1 else 0
  }

  lemma {:induction false} ClaimedSeen(seen: set<EventId>, id: EventId, marks: nat -> Mark, from: nat, limit: nat)
    ensures var (seen', isNew) := Claimed(seen, id, marks, from, limit);
            && (seen' == seen || seen' == seen + {id})
            && (isNew.Some? ==> id in seen')
            && (isNew == Some(true) ==> id !in seen)
    decreases limit - from
  {
    if from < limit {
      ClaimedSeen(seen, id, marks, from + 1, limit);
      ClaimedSeen(seen + {id}, id, marks, from + 1, limit);
    }
  }

  lemma SeenStays(db: Db, d: Delivery, id: EventId)
    requires id in db.seen
    ensures id in Consumed(db, d).seen
  {
    if d.msg.Work? {
      ClaimedSeen(db.seen, d.msg.id, d.marks, 0, ClaimLimit(d));
    }
  }

  /** Whatever is redelivered, and whatever fails, an event is claimed at most once. */
  lemma {:induction false} ClaimedAtMostOnce(ds: seq<Delivery>, id: EventId)
    ensures ClaimsOf(ds, id) <= 1
    ensures ClaimsOf(ds, id) == 1 ==> id in After(Empty, ds).seen
    decreases |ds|
  {
    if |ds| > 0 {
      var front, last := ds[..|ds| - 1], ds[|ds| - 1];
      ClaimedAtMostOnce(front, id);
      ClaimedSeen(After(Empty, front).seen, id, last.marks, 0, ClaimLimit(last));
      if id in After(Empty, front).seen {
        SeenStays(After(Empty, front), last, id);
      }
    }
  }

  lemma {:induction false} HandledIsOfEvent(id: EventId, data: Data, attempts: nat -> Attempt, from: nat, limit: nat, other: EventId)
    ensures TasksOf(Handled(id, data, attempts, from, limit).0, other) == if other == id then |Handled(id, data, attempts, from, limit).0| else 0
    decreases limit - from
  {
    if from < limit {
      HandledIsOfEvent(id, data, attempts, from + 1, limit, other);
      match attempts(from)
      case UnknownPath =>
      case RollsBack(_) =>
      case Commits(def) =>
        assert [Task(id, def, data)][..0] == [];
      case CommitsButErrs(def) =>
        assert [Task(id, def, data)][..0] == [];
        TasksOfAppend([Task(id, def, data)], Handled(id, data, attempts, from + 1, limit).0, other);
    }
  }

  /** The tasks an event gets from one delivery. */
  lemma TasksAdded(db: Db, d: Delivery, id: EventId)
    ensures TasksOf(Consumed(db, d).tasks, id)
            == TasksOf(db.tasks, id) + if Claims(db, d, id) then |Handled(id, d.msg.data, d.attempts, 0, WorkLimit(d)).0| else 0
  {
    if d.msg.Work? {
      HandledIsOfEvent(d.msg.id, d.msg.data, d.attempts, 0, WorkLimit(d), id);
      TasksOfAppend(db.tasks, Handled(d.msg.id, d.msg.data, d.attempts, 0, WorkLimit(d)).0, id);
    }
  }

  /** The claiming delivery of an event, if any. */
  function Claimer(ds: seq<Delivery>, id: EventId): Option<Delivery>
    decreases |ds|
  {
    if |ds| == 0 then None
    else if Claims(After(Empty, ds[..|ds| - 1]), ds[|ds| - 1], id) then Some(ds[|ds| - 1])
    else Claimer(ds[..|ds| - 1], id)
  }

  lemma {:induction false} ClaimerIs(ds: seq<Delivery>, id: EventId)
    ensures Claimer(ds, id).Some? <==> ClaimsOf(ds, id) > 0
    ensures Claimer(ds, id).Some? ==> Claimer(ds, id).value.msg.Work? && Claimer(ds, id).value.msg.id == id
    ensures Claimer(ds, id).Some? ==> exists i :: 0 <= i < |ds| && ds[i] == Claimer(ds, id).value
    decreases |ds|
  {
    if |ds| > 0 {
      var front := ds[..|ds| - 1];
      ClaimerIs(front, id);
      if Claimer(front, id).Some? && !Claims(After(Empty, front), ds[|ds| - 1], id) {
        var i :| 0 <= i < |front| && front[i] == Claimer(front, id).value;
        assert ds[i] == Claimer(ds, id).value;
      }
    }
  }

  /** An event's tasks are exactly those its one claiming delivery created. */
  lemma {:induction false} TasksComeFromTheClaim(ds: seq<Delivery>, id: EventId)
    ensures Claimer(ds, id).None? ==> TasksOf(After(Empty, ds).tasks, id) == 0
    ensures Claimer(ds, id).Some? ==>
              var d := Claimer(ds, id).value;
              d.msg.Work? && TasksOf(After(Empty, ds).tasks, id) == |Handled(id, d.msg.data, d.attempts, 0, WorkLimit(d)).0|
    decreases |ds|
  {
    if |ds| > 0 {
      var front, last := ds[..|ds| - 1], ds[|ds| - 1];
      TasksComeFromTheClaim(front, id);
      TasksAdded(After(Empty, front), last, id);
      ClaimerIs(front, id);
      ClaimedAtMostOnce(ds, id);
    }
  }

  /**
   Over any deliveries with duplicates and failures: an event gets a task exactly when it was claimed and an attempt of
   the claim was reached that leaves one, and a second one exactly when the claim committed with an error and then again.
   */
  lemma TasksExactlyWhen(ds: seq<Delivery>, id: EventId)
    ensures TasksOf(After(Empty, ds).tasks, id) >= 1
            <==> Claimer(ds, id).Some?
                 && var d := Claimer(ds, id).value;
                    exists k: nat :: k < WorkLimit(d) && Reached(d.attempts, 0, k) && LeavesTask(d.attempts(k))
    ensures TasksOf(After(Empty, ds).tasks, id) >= 2
            <==> Claimer(ds, id).Some?
                 && var d := Claimer(ds, id).value;
                    exists j: nat, k: nat ::
                      j < k < WorkLimit(d) && Reached(d.attempts, 0, k) && d.attempts(j).CommitsButErrs? && LeavesTask(d.attempts(k))
  {
    TasksComeFromTheClaim(ds, id);
    ClaimerIs(ds, id);
    if Claimer(ds, id).Some? {
      var d := Claimer(ds, id).value;
      SomeTaskExactlyWhen(id, d.msg.data, d.attempts, 0, WorkLimit(d));
      DuplicatesExactlyWhen(id, d.msg.data, d.attempts, 0, WorkLimit(d));
    }
  }

  /** So with no ambiguous task commit each event gets at most one task, and one exactly when an attempt of its claim committed. */
  lemma AtMostOneTask(ds: seq<Delivery>, id: EventId)
    requires forall i :: 0 <= i < |ds| ==> NoAmbiguousCommit(ds[i].attempts, MaxHandlerAttempts)
    ensures TasksOf(After(Empty, ds).tasks, id) <= 1
    ensures TasksOf(After(Empty, ds).tasks, id) == 1
            <==> Claimer(ds, id).Some?
                 && exists k: nat :: k < WorkLimit(Claimer(ds, id).value) && Claimer(ds, id).value.attempts(k).Commits?
  {
    TasksComeFromTheClaim(ds, id);
    ClaimerIs(ds, id);
    if Claimer(ds, id).Some? {
      var d := Claimer(ds, id).value;
      OneTaskOrError(id, d.msg.data, d.attempts, 0, WorkLimit(d));
      SucceedsExactlyWhen(id, d.msg.data, d.attempts, 0, WorkLimit(d));
    }
  }

  // ---- What each delivery of an event comes to, by the deliveries alone ----

  predicate IsOf(d: Delivery, id: EventId) {
    d.msg.Work? && d.msg.id == id
  }

  /** Some claim attempt of the delivery recorded the id, whether or not it said so. */
  predicate Touches(d: Delivery) {
    exists k: nat :: k < ClaimLimit(d) && !d.marks(k).MarkFails?
  }

  /** Some claim attempt of the delivery answered. */
  predicate Answered(d: Delivery) {
    exists k: nat :: k < ClaimLimit(d) && FirstAnswer(d.marks, 0, k)
  }

  predicate Untouched(ds: seq<Delivery>, id: EventId) {
    forall i :: 0 <= i < |ds| && IsOf(ds[i], id) ==> !Touches(ds[i])
  }

  /** The delivery that claims its event: the first to record the id, told so by the attempt that did. */
  predicate ClaimsFirst(ds: seq<Delivery>, i: nat, id: EventId)
    requires i < |ds|
  {
    IsOf(ds[i], id) && Untouched(ds[..i], id) && Answered(ds[i]) && !SelfBlocked(ds[i])
  }

  /** All claim attempts granted were made, and none answered. */
  predicate Unanswered(d: Delivery) {
    !Answered(d) && ClaimLimit(d) == Granted(d.claimsAllowed)
  }

  /** All attempts at the work granted were made, and none committed without an error. */
  predicate Unworked(d: Delivery) {
    WorkLimit(d) == Granted(d.attemptsAllowed) && forall k: nat :: k < WorkLimit(d) ==> !d.attempts(k).Commits?
  }

  /** The delivery's handling ends with an error. */
  predicate GivesUp(ds: seq<Delivery>, i: nat, id: EventId)
    requires i < |ds|
  {
    IsOf(ds[i], id) && (Unanswered(ds[i]) || (ClaimsFirst(ds, i, id) && Unworked(ds[i])))
  }

  /** And its error reaches the dead-letter topic. */
  predicate Arrives(d: Delivery) {
    d.sink == SinkStores && d.death != DiesHandingOver
  }

  /** Some attempt at the work is reached that leaves a task. */
  predicate LeavesSomeTask(d: Delivery) {
    exists k: nat :: k < WorkLimit(d) && Reached(d.attempts, 0, k) && LeavesTask(d.attempts(k))
  }

  lemma {:induction false} AnswerComes(seen: set<EventId>, id: EventId, marks: nat -> Mark, from: nat, limit: nat)
    ensures Claimed(seen, id, marks, from, limit).1.Some? <==> exists k: nat :: k < limit && FirstAnswer(marks, from, k)
    decreases limit - from
  {
    if from < limit {
      if marks(from).Answers? {
        assert FirstAnswer(marks, from, from);
      } else {
        var next, seen' := from + 1, if marks(from).RecordsButErrs? then seen + {id} else seen;
        AnswerComes(seen', id, marks, next, limit);
        assert Claimed(seen, id, marks, from, limit).1 == Claimed(seen', id, marks, next, limit).1;
        forall k: nat | FirstAnswer(marks, from, k) || FirstAnswer(marks, next, k)
          ensures FirstAnswer(marks, from, k) && FirstAnswer(marks, next, k)
        {
          assert k > from;
        }
      }
    }
  }

  lemma {:induction false} RecordComes(seen: set<EventId>, id: EventId, marks: nat -> Mark, from: nat, limit: nat)
    ensures id in Claimed(seen, id, marks, from, limit).0
            <==> id in seen || exists k: nat :: from <= k < limit && !marks(k).MarkFails?
    decreases limit - from
  {
    if from < limit && !marks(from).Answers? {
      RecordComes(if marks(from).RecordsButErrs? then seen + {id} else seen, id, marks, from + 1, limit);
    }
  }

  /** An id is recorded exactly when some delivery of it touched it. */
  lemma {:induction false} SeenExactlyWhen(ds: seq<Delivery>, id: EventId)
    ensures id in After(Empty, ds).seen <==> !Untouched(ds, id)
    decreases |ds|
  {
    if |ds| > 0 {
      var front, last := ds[..|ds| - 1], ds[|ds| - 1];
      SeenExactlyWhen(front, id);
      UntouchedSnoc(ds, id);
      if last.msg.Work? {
        ClaimedSeen(After(Empty, front).seen, last.msg.id, last.marks, 0, ClaimLimit(last));
        RecordComes(After(Empty, front).seen, last.msg.id, last.marks, 0, ClaimLimit(last));
      }
    }
  }

  lemma UntouchedSnoc(ds: seq<Delivery>, id: EventId)
    requires |ds| > 0
    ensures Untouched(ds, id) <==> Untouched(ds[..|ds| - 1], id) && (IsOf(ds[|ds| - 1], id) ==> !Touches(ds[|ds| - 1]))
  {
    var front := ds[..|ds| - 1];
    assert forall i :: 0 <= i < |front| ==> front[i] == ds[i];
  }

  lemma ClaimsExactlyWhen(ds: seq<Delivery>, i: nat, id: EventId)
    requires i < |ds|
    ensures Claims(After(Empty, ds[..i]), ds[i], id) <==> ClaimsFirst(ds, i, id)
  {
    var db, d := After(Empty, ds[..i]), ds[i];
    SeenExactlyWhen(ds[..i], id);
    if IsOf(d, id) {
      ClaimedSeen(db.seen, id, d.marks, 0, ClaimLimit(d));
      AnswerComes(db.seen, id, d.marks, 0, ClaimLimit(d));
      if id !in db.seen {
        BlockedExactlyWhen(db.seen, d);
      }
    }
  }

  /** A delivery of an event is given up exactly when its claim is never answered, or it claims and its work never commits. */
  lemma GivesUpExactlyWhen(ds: seq<Delivery>, i: nat, id: EventId)
    requires i < |ds| && IsOf(ds[i], id)
    ensures HandleResult(After(Empty, ds[..i]), ds[i]).1 == GivenUp <==> GivesUp(ds, i, id)
  {
    var db, d := After(Empty, ds[..i]), ds[i];
    ClaimsExactlyWhen(ds, i, id);
    AnswerComes(db.seen, id, d.marks, 0, ClaimLimit(d));
    SucceedsExactlyWhen(id, d.msg.data, d.attempts, 0, WorkLimit(d));
  }

  predicate HasLetter(dead: seq<Message>, id: EventId) {
    exists i :: 0 <= i < |dead| && dead[i].Work? && dead[i].id == id
  }

  lemma LetterSnoc(dead: seq<Message>, m: Message, id: EventId)
    ensures HasLetter(dead + [m], id) <==> HasLetter(dead, id) || (m.Work? && m.id == id)
  {
    var longer := dead + [m];
    assert longer[|dead|] == m;
    assert forall i :: 0 <= i < |dead| ==> longer[i] == dead[i];
  }

  /** Some delivery of the event was given up and arrived at the dead-letter topic. */
  predicate SomeArrives(ds: seq<Delivery>, id: EventId) {
    exists i :: 0 <= i < |ds| && GivesUp(ds, i, id) && Arrives(ds[i])
  }

  /** Some delivery claimed the event and left a task. */
  predicate SomeCreates(ds: seq<Delivery>, id: EventId) {
    exists i :: 0 <= i < |ds| && ClaimsFirst(ds, i, id) && LeavesSomeTask(ds[i])
  }

  lemma SomeArrivesSnoc(ds: seq<Delivery>, id: EventId)
    requires |ds| > 0
    ensures var last := |ds| - 1;
            SomeArrives(ds, id) <==> SomeArrives(ds[..last], id) || (GivesUp(ds, last, id) && Arrives(ds[last]))
    ensures var last := |ds| - 1;
            SomeCreates(ds, id) <==> SomeCreates(ds[..last], id) || (ClaimsFirst(ds, last, id) && LeavesSomeTask(ds[last]))
  {
    var front := ds[..|ds| - 1];
    forall i | 0 <= i < |front|
      ensures front[i] == ds[i] && GivesUp(front, i, id) == GivesUp(ds, i, id) && ClaimsFirst(front, i, id) == ClaimsFirst(ds, i, id)
    {
      assert front[..i] == ds[..i];
    }
  }

  /** An event has a dead letter exactly when a delivery of it that gives up reaches a sink that stores. */
  lemma {:induction false} LetterExactlyWhen(ds: seq<Delivery>, id: EventId)
    ensures HasLetter(After(Empty, ds).dead, id) <==> SomeArrives(ds, id)
    decreases |ds|
  {
    if |ds| > 0 {
      var front, last := ds[..|ds| - 1], ds[|ds| - 1];
      LetterExactlyWhen(front, id);
      SomeArrivesSnoc(ds, id);
      OneGivenUp(After(Empty, front), last);
      LetterSnoc(After(Empty, front).dead, last.msg, id);
      if IsOf(last, id) {
        GivesUpExactlyWhen(ds, |ds| - 1, id);
      }
    }
  }

  /** And a task exactly when the delivery that claims it leaves one. */
  lemma {:induction false} TaskExactlyWhen(ds: seq<Delivery>, id: EventId)
    ensures TasksOf(After(Empty, ds).tasks, id) >= 1 <==> SomeCreates(ds, id)
    decreases |ds|
  {
    if |ds| > 0 {
      var front, last := ds[..|ds| - 1], ds[|ds| - 1];
      TaskExactlyWhen(front, id);
      SomeArrivesSnoc(ds, id);
      TasksAdded(After(Empty, front), last, id);
      ClaimsExactlyWhen(ds, |ds| - 1, id);
      if IsOf(last, id) {
        SomeTaskExactlyWhen(id, last.msg.data, last.attempts, 0, WorkLimit(last));
      }
    }
  }

  /** The event has its task, or a letter in the dead-letter topic. */
  predicate Accounted(db: Db, id: EventId) {
    TasksOf(db.tasks, id) >= 1 || HasLetter(db.dead, id)
  }

  /**
   What is lost, over any run, whatever fails and wherever the process dies: an event leaves neither a task nor a dead
   letter exactly when no delivery claimed it and left a task, and no delivery of it that gave up reached a sink that
   stores. Both are read off the deliveries.
   */
  lemma UnaccountedExactlyWhen(ds: seq<Delivery>, id: EventId)
    ensures !Accounted(After(Empty, ds), id) <==> !SomeCreates(ds, id) && !SomeArrives(ds, id)
  {
    TaskExactlyWhen(ds, id);
    LetterExactlyWhen(ds, id);
  }

  /** Once an event is recorded and not accounted for, a redelivery helps only by failing to get an answer at all. */
  lemma RedeliveryHelpsExactlyWhen(ds: seq<Delivery>, d: Delivery, id: EventId)
    requires !Untouched(ds, id) && !Accounted(After(Empty, ds), id)
    ensures Accounted(After(Empty, ds + [d]), id) <==> IsOf(d, id) && Unanswered(d) && Arrives(d)
  {
    var longer := ds + [d];
    assert longer[..|ds|] == ds && longer[|ds|] == d;
    UnaccountedExactlyWhen(ds, id);
    UnaccountedExactlyWhen(longer, id);
    SomeArrivesSnoc(longer, id);
  }

  /** The first delivery of an event. */
  function FirstOf(ds: seq<Delivery>, id: EventId): (r: Option<nat>)
    ensures r.Some? ==> r.value < |ds| && IsOf(ds[r.value], id)
    ensures r.Some? ==> forall i :: 0 <= i < r.value ==> !IsOf(ds[i], id)
    ensures r.None? <==> forall i :: 0 <= i < |ds| ==> !IsOf(ds[i], id)
    decreases |ds|
  {
    if |ds| == 0 then None
    else
      var front, last := ds[..|ds| - 1], ds[|ds| - 1];
      assert forall i :: 0 <= i < |front| ==> front[i] == ds[i];
      if FirstOf(front, id).Some? then FirstOf(front, id) else if IsOf(last, id) then Some(|ds| - 1) else None
  }

  /** No claim attempt errs after recording the id. */
  predicate NoAmbiguousMark(d: Delivery) {
    forall k: nat :: k < MaxHandlerAttempts ==> !d.marks(k).RecordsButErrs?
  }

  /** Nothing is lost when an event's first delivery has honest claim errors, survives, and has a sink that stores. */
  lemma NothingIsLost(ds: seq<Delivery>, id: EventId)
    requires FirstOf(ds, id).Some?
    requires var d := ds[FirstOf(ds, id).value]; NoAmbiguousMark(d) && d.death.Survives? && d.sink == SinkStores
    ensures Accounted(After(Empty, ds), id)
  {
    UnaccountedExactlyWhen(ds, id);
    var i := FirstOf(ds, id).value;
    var d := ds[i];
    assert Untouched(ds[..i], id);
    SucceedsExactlyWhen(id, d.msg.data, d.attempts, 0, WorkLimit(d));
    SomeTaskWhenDone(id, d.msg.data, d.attempts, WorkLimit(d));
    SomeTaskExactlyWhen(id, d.msg.data, d.attempts, 0, WorkLimit(d));
    if Answered(d) {
      assert ClaimsFirst(ds, i, id);
      assert Unworked(d) ==> GivesUp(ds, i, id);
      assert LeavesSomeTask(d) ==> SomeCreates(ds, id);
    } else {
      assert GivesUp(ds, i, id);
    }
  }

  // ---- The dead-letter path ----

  /** The deliveries differ at most in how their dead-letter writes go. */
  ghost predicate SameButSink(d: Delivery, e: Delivery) {
    && d.msg == e.msg && d.marks == e.marks && d.attempts == e.attempts
    && d.claimsAllowed == e.claimsAllowed && d.attemptsAllowed == e.attemptsAllowed && d.death == e.death
  }

  lemma SinkIsInvisible(a: Db, b: Db, d: Delivery, e: Delivery)
    requires SameButSink(d, e) && a.seen == b.seen && a.tasks == b.tasks && a.failed == b.failed
    ensures HandleResult(a, d).1 == HandleResult(b, e).1
    ensures var (a', b') := (Consumed(a, d), Consumed(b, e)); a'.seen == b'.seen && a'.tasks == b'.tasks && a'.failed == b'.failed
  {
  }

  /** A missing or failing dead-letter sink changes nothing else: the same events are recorded, created and given up. */
  lemma {:induction false} SinksAreInvisible(ds: seq<Delivery>, es: seq<Delivery>)
    requires |ds| == |es| && forall i :: 0 <= i < |ds| ==> SameButSink(ds[i], es[i])
    ensures var (a, b) := (After(Empty, ds), After(Empty, es)); a.seen == b.seen && a.tasks == b.tasks && a.failed == b.failed
    decreases |ds|
  {
    if |ds| > 0 {
      var ds0, es0 := ds[..|ds| - 1], es[..|es| - 1];
      SinksAreInvisible(ds0, es0);
      SinkIsInvisible(After(Empty, ds0), After(Empty, es0), ds[|ds| - 1], es[|es| - 1]);
    }
  }

  /** The messages given up in a run by a process that lived to hand them over, with what their sink did. */
  function HandedOver(ds: seq<Delivery>): seq<(Message, Sink)>
    decreases |ds|
  {
    if |ds| == 0 then []
    else
      var front, last := ds[..|ds| - 1], ds[|ds| - 1];
      if HandsOver(HandleResult(After(Empty, front), last).1, last) then HandedOver(front) + [(last.msg, last.sink)]
      else HandedOver(front)
  }

  function Messages(given: seq<(Message, Sink)>): seq<Message> {
    if given == [] then [] else Messages(given[..|given| - 1]) + [given[|given| - 1].0]
  }

  function Stored(given: seq<(Message, Sink)>): seq<(Message, Sink)> {
    if given == [] then []
    else
      var front, last := given[..|given| - 1], given[|given| - 1];
      if last.1 == SinkStores then Stored(front) + [last] else Stored(front)
  }

  lemma GivenSnoc(given: seq<(Message, Sink)>, g: (Message, Sink))
    ensures Messages(given + [g]) == Messages(given) + [g.0]
    ensures Stored(given + [g]) == if g.1 == SinkStores then Stored(given) + [g] else Stored(given)
  {
    assert (given + [g])[..|given|] == given;
  }

  lemma OneGivenUp(db: Db, d: Delivery)
    ensures Consumed(db, d).failed == if HandsOver(HandleResult(db, d).1, d) then db.failed + [d.msg] else db.failed
    ensures Consumed(db, d).dead == if HandleResult(db, d).1 == GivenUp && Arrives(d) then db.dead + [d.msg] else db.dead
  {
  }

  /** Exactly the messages given up were handed over, in order, and exactly those whose sink stored them arrived. */
  lemma {:induction false} DeadLettersAreFailures(ds: seq<Delivery>)
    ensures After(Empty, ds).failed == Messages(HandedOver(ds))
    ensures After(Empty, ds).dead == Messages(Stored(HandedOver(ds)))
    decreases |ds|
  {
    if |ds| > 0 {
      var front, last := ds[..|ds| - 1], ds[|ds| - 1];
      DeadLettersAreFailures(front);
      OneGivenUp(After(Empty, front), last);
      GivenSnoc(HandedOver(front), (last.msg, last.sink));
      GivenSnoc(Stored(HandedOver(front)), (last.msg, last.sink));
    }
  }

  /** A claim that ends without an error has left one task; one that is given up or dies has left none, and only one given up is handed over. */
  lemma ClaimEndsOneWay(db: Db, d: Delivery)
    requires d.msg.Work? && Claims(db, d, d.msg.id) && NoAmbiguousCommit(d.attempts, MaxHandlerAttempts)
    ensures var (ending, db') := (HandleResult(db, d).1, Consumed(db, d));
            && |db'.tasks| == |db.tasks| + (if ending == Acked then 1 else 0)
            && db'.failed == (if HandsOver(ending, d) then db.failed + [d.msg] else db.failed)
            && db'.dead == (if ending == GivenUp && Arrives(d) then db.dead + [d.msg] else db.dead)
  {
    OneTaskOrError(d.msg.id, d.msg.data, d.attempts, 0, WorkLimit(d));
  }
}

/**
 Which message moves which row (internal/adapters/inbound/kafka/analytics_consumer.go): each of the five kinds moves one
 counter of the row of its own dimensions and hour, and nothing else; told from the fields of the messages.
 */
module MessageProjection {
  import opened Prelude
  import opened Throughput
  import opened Projection
  import opened ThroughputLaws
  import opened AnalyticsPipeline

  const NO_FAULT := Fault(MarkOk, NoFault)

  /** The row of a process path and station for the hour an instant lies in. */
  function RowAt(taskType: string, station: string, at: Instant): RowKey {
    RowKey(taskType, station, at - at % 3_600_000_000_000)
  }

  predicate Remembers(before: Pg, after: Pg, claim: ClaimId, at: Instant) {
    after.rollup == before.rollup && after.pending == before.pending[claim := at]
  }

  predicate Completes(before: Pg, after: Pg, k: RowKey, claim: ClaimId, at: Instant) {
    var a := RowOf(before.rollup, k);
    && after.pending == before.pending - {claim}
    && after.rollup
       == if claim in before.pending
          then before.rollup[k := a.(completions := a.completions + 1, withClaim := a.withClaim + 1,
                                     claimTime := a.claimTime + (at - before.pending[claim]))]
          else before.rollup[k := a.(completions := a.completions + 1)]
  }

  /** The row becomes this, no other row changes, and the pending claims stay. */
  predicate MovesRow(before: Pg, after: Pg, k: RowKey, a: Acc) {
    after.rollup == before.rollup[k := a] && after.pending == before.pending
  }

  /** What a new message with this payload moves, by kind. */
  predicate Moves(before: Pg, after: Pg, p: Payload, at: Instant) {
    match p.kind
    case TaskClaimed(task) => Remembers(before, after, ClaimId(p.taskType, p.station, task), at)
    case TaskCompleted(task) => Completes(before, after, RowAt(p.taskType, p.station, at), ClaimId(p.taskType, p.station, task), at)
    case LeaseExpired(_) =>
      var a := RowOf(before.rollup, RowAt(p.taskType, p.station, at));
      MovesRow(before, after, RowAt(p.taskType, p.station, at), a.(leaseExpiries := a.leaseExpiries + 1))
    case WeightDiscrepancy =>
      var a := RowOf(before.rollup, RowAt("SLAM", p.station, at));
      MovesRow(before, after, RowAt("SLAM", p.station, at), a.(weighCheckDiverts := a.weighCheckDiverts + 1))
    case PackageManifested(onTime) =>
      var a := RowOf(before.rollup, RowAt(p.taskType, p.station, at));
      if !p.resolved then after == before
      else MovesRow(before, after, RowAt(p.taskType, p.station, at),
                    if onTime then a.(manifested := a.manifested + 1, onTime := a.onTime + 1)
                    else a.(manifested := a.manifested + 1, late := a.late + 1))
  }

  /** The event of a payload's own fields. */
  function EventFrom(id: string, at: Instant, p: Payload): Event {
    Event(id, p.kind, if p.kind.WeightDiscrepancy? then "SLAM" else p.taskType, p.station, at)
  }

  /** A new message without a fault is applied as the event of its own fields, unless it is an unresolved manifest. */
  lemma FaultlessDelivery(c: Consumed, id: string, at: Instant, p: Payload)
    requires id !in c.marked
    ensures var (c', ok) := Deliver(c, Projecting(id, at, Some(p)), NO_FAULT);
            && c'.marked == c.marked + {id}
            && c'.tables == if p.kind.PackageManifested? && !p.resolved then c.tables else ApplyPg(c.tables, EventFrom(id, at, p))
  {
    var d := Delivery(Projecting(id, at, Some(p)), NO_FAULT);
    if !(p.kind.PackageManifested? && !p.resolved) {
      assert EventOf(d.msg) == Some(EventFrom(id, at, p));
      AdmittedStep(c, d);
    }
  }

  lemma AppliedToRow(pg: Pg, e: Event, k: RowKey, d: Acc)
    requires e.id !in pg.processed && k == RowAt(e.taskType, e.station, e.at)
    requires !e.kind.TaskClaimed? && d == Delta(e, PendingInPg(pg.pending, e))
    ensures ApplyPg(pg, e).rollup == pg.rollup[k := RowOf(pg.rollup, k).Plus(d)]
    ensures !e.kind.TaskCompleted? ==> ApplyPg(pg, e).pending == pg.pending
  {
    assert KeyOf(e) == k;
  }

  lemma TimedCompletion(pg: Pg, e: Event, k: RowKey, claim: ClaimId)
    requires e.id !in pg.processed && k == RowAt(e.taskType, e.station, e.at)
    requires e.kind.TaskCompleted? && claim == ClaimIdOf(e) && claim in pg.pending
    ensures Completes(pg, ApplyPg(pg, e), k, claim, e.at)
  {
    AppliedToRow(pg, e, k, ZERO.(completions := 1, withClaim := 1, claimTime := e.at - pg.pending[claim]));
  }

  lemma UntimedCompletion(pg: Pg, e: Event, k: RowKey, claim: ClaimId)
    requires e.id !in pg.processed && k == RowAt(e.taskType, e.station, e.at)
    requires e.kind.TaskCompleted? && claim == ClaimIdOf(e) && claim !in pg.pending
    ensures Completes(pg, ApplyPg(pg, e), k, claim, e.at)
  {
    AppliedToRow(pg, e, k, ZERO.(completions := 1));
  }

  lemma CompletionMoves(pg: Pg, id: string, at: Instant, p: Payload)
    requires id !in pg.processed && p.kind.TaskCompleted?
    ensures Moves(pg, ApplyPg(pg, EventFrom(id, at, p)), p, at)
  {
    var e, k, claim := EventFrom(id, at, p), RowAt(p.taskType, p.station, at), ClaimId(p.taskType, p.station, p.kind.task);
    if claim in pg.pending {
      TimedCompletion(pg, e, k, claim);
    } else {
      UntimedCompletion(pg, e, k, claim);
    }
  }

  lemma ExpiryMoves(pg: Pg, id: string, at: Instant, p: Payload)
    requires id !in pg.processed && p.kind.LeaseExpired?
    ensures Moves(pg, ApplyPg(pg, EventFrom(id, at, p)), p, at)
  {
    AppliedToRow(pg, EventFrom(id, at, p), RowAt(p.taskType, p.station, at), ZERO.(leaseExpiries := 1));
  }

  lemma DivertMoves(pg: Pg, id: string, at: Instant, p: Payload)
    requires id !in pg.processed && p.kind.WeightDiscrepancy?
    ensures Moves(pg, ApplyPg(pg, EventFrom(id, at, p)), p, at)
  {
    AppliedToRow(pg, EventFrom(id, at, p), RowAt("SLAM", p.station, at), ZERO.(weighCheckDiverts := 1));
  }

  lemma OnTimeMoves(pg: Pg, id: string, at: Instant, p: Payload)
    requires id !in pg.processed && p.kind.PackageManifested? && p.resolved && p.kind.onTime
    ensures Moves(pg, ApplyPg(pg, EventFrom(id, at, p)), p, at)
  {
    AppliedToRow(pg, EventFrom(id, at, p), RowAt(p.taskType, p.station, at), ZERO.(manifested := 1, onTime := 1));
  }

  lemma LateMoves(pg: Pg, id: string, at: Instant, p: Payload)
    requires id !in pg.processed && p.kind.PackageManifested? && p.resolved && !p.kind.onTime
    ensures Moves(pg, ApplyPg(pg, EventFrom(id, at, p)), p, at)
  {
    AppliedToRow(pg, EventFrom(id, at, p), RowAt(p.taskType, p.station, at), ZERO.(manifested := 1, late := 1));
  }

  lemma ClaimMoves(pg: Pg, id: string, at: Instant, p: Payload)
    requires id !in pg.processed && p.kind.TaskClaimed?
    ensures Moves(pg, ApplyPg(pg, EventFrom(id, at, p)), p, at)
  {
  }

  lemma EventMoves(pg: Pg, id: string, at: Instant, p: Payload)
    requires id !in pg.processed && (p.kind.PackageManifested? ==> p.resolved)
    ensures Moves(pg, ApplyPg(pg, EventFrom(id, at, p)), p, at)
  {
    match p.kind
    case TaskClaimed(_) => ClaimMoves(pg, id, at, p);
    case TaskCompleted(_) => CompletionMoves(pg, id, at, p);
    case LeaseExpired(_) => ExpiryMoves(pg, id, at, p);
    case WeightDiscrepancy => DivertMoves(pg, id, at, p);
    case PackageManifested(onTime) =>
      if onTime {
        OnTimeMoves(pg, id, at, p);
      } else {
        LateMoves(pg, id, at, p);
      }
  }

  /**
   A new message without a fault. A claim is remembered and moves no row; a completion, a lease expiry and a resolved
   manifest move the row of the payload's own path and station, a weight discrepancy that of SLAM, each in the hour of the
   message's instant and by its own counter; an unresolved manifest moves nothing. The id is marked in every case.
   */
  lemma ProjectsByItsFields(c: Consumed, id: string, at: Instant, p: Payload)
    requires id !in c.marked && id !in c.tables.processed
    ensures var c' := Deliver(c, Projecting(id, at, Some(p)), NO_FAULT).0;
            c'.marked == c.marked + {id} && Moves(c.tables, c'.tables, p, at)
  {
    FaultlessDelivery(c, id, at, p);
    if !p.kind.PackageManifested? || p.resolved {
      EventMoves(c.tables, id, at, p);
    }
  }

  /** A message whose data does not decode moves nothing, and its id is marked; other types and non-events leave no trace at all. */
  lemma OthersMoveNothing(c: Consumed, msg: Message, fault: Fault)
    requires !msg.Projecting? || msg.payload.None?
    ensures var c' := Deliver(c, msg, fault).0;
            c'.tables == c.tables && c'.marked == if msg.Projecting? && fault.mark != MarkError then c.marked + {msg.id} else c.marked
  {
  }

  // ---- Over all deliveries ----

  /** The event took effect by its recording delivery. */
  predicate TookAt(ds: seq<Delivery>, i: nat, e: Event)
    requires i < |ds|
  {
    Recorder(ds, e.id) == Some(i) && Lands(ds, i) && EventOf(ds[i].msg) == Some(e)
  }

  ghost predicate Took(ds: seq<Delivery>, e: Event) {
    exists i :: 0 <= i < |ds| && TookAt(ds, i, e)
  }

  lemma TookEarlier(ds: seq<Delivery>, e: Event)
    requires ds != []
    ensures var init, last := ds[..|ds| - 1], ds[|ds| - 1];
            Took(ds, e) <==> Took(init, e) || (Admits(DeliverAll(init), last)
                                              && !Strikes(DeliverAll(init).tables, EventOf(last.msg).value, last.fault.apply)
                                              && EventOf(last.msg).value == e)
  {
    var init, last := ds[..|ds| - 1], ds[|ds| - 1];
    MarkedExactlyWhen(init, e.id);
    LandsLast(ds);
    forall i | 0 <= i < |init| ensures TookAt(ds, i, e) <==> TookAt(init, i, e) {
      LandsEarly(ds, i);
    }
    if Took(ds, e) {
      var i :| 0 <= i < |ds| && TookAt(ds, i, e);
      assert i < |init| ==> TookAt(init, i, e);
    }
    if Admits(DeliverAll(init), last) && EventOf(last.msg).value == e {
      assert Recorder(ds, e.id) == Some(|init|);
      assert Lands(ds, |init|) ==> TookAt(ds, |init|, e);
    }
  }

  lemma {:induction false} TookExactlyWhen(ds: seq<Delivery>, e: Event)
    ensures e in TookEffect(ds) <==> Took(ds, e)
    decreases |ds|
  {
    if ds != [] {
      TookExactlyWhen(ds[..|ds| - 1], e);
      TookEarlier(ds, e);
    }
  }

  /** The delivery landed, and its message is of such a kind, for this path and station, within the hour from h on. */
  predicate LandsAs(ds: seq<Delivery>, i: nat, kind: Kind -> bool, taskType: string, station: string, h: Instant)
    requires i < |ds|
  {
    ds[i].fault.mark == MarkOk && ds[i].msg.Projecting? && ds[i].msg.payload.Some?
    && var m, p := ds[i].msg, ds[i].msg.payload.value;
       && kind(p.kind) && (p.kind.PackageManifested? ==> p.resolved)
       && (if p.kind.WeightDiscrepancy? then "SLAM" else p.taskType) == taskType && p.station == station
       && h <= m.at < h + 3_600_000_000_000
       && !Strikes(DeliverAll(ds[..i]).tables, Event(m.id, p.kind, taskType, station, m.at), ds[i].fault.apply)
  }

  /** The distinct ids of such messages, each judged by the delivery that recorded it. */
  function IdsLanded(ds: seq<Delivery>, kind: Kind -> bool, taskType: string, station: string, h: Instant): set<string> {
    set i | 0 <= i < |ds| && ds[i].msg.Projecting? && Recorder(ds, ds[i].msg.id) == Some(i) && LandsAs(ds, i, kind, taskType, station, h)
      :: ds[i].msg.id
  }

  lemma LandsAsIsTook(ds: seq<Delivery>, i: nat, kind: Kind -> bool, taskType: string, station: string, h: Instant)
    requires i < |ds| && ds[i].msg.Projecting? && Recorder(ds, ds[i].msg.id) == Some(i)
    ensures LandsAs(ds, i, kind, taskType, station, h)
            <==> Lands(ds, i) && var e := EventOf(ds[i].msg).value;
                   e.id == ds[i].msg.id && kind(e.kind) && e.taskType == taskType && e.station == station && h <= e.at < h + 3_600_000_000_000
  {
  }

  lemma IdsLandedAreTaken(ds: seq<Delivery>, kind: Kind -> bool, taskType: string, station: string, h: Instant)
    ensures IdsLanded(ds, kind, taskType, station, h) == IdsWithin(TookEffect(ds), taskType, station, h, kind)
  {
    var es := TookEffect(ds);
    forall id | id in IdsLanded(ds, kind, taskType, station, h) ensures id in IdsWithin(es, taskType, station, h, kind) {
      var i :| 0 <= i < |ds| && ds[i].msg.Projecting? && Recorder(ds, ds[i].msg.id) == Some(i)
               && LandsAs(ds, i, kind, taskType, station, h) && ds[i].msg.id == id;
      LandsAsIsTook(ds, i, kind, taskType, station, h);
      var e := EventOf(ds[i].msg).value;
      assert TookAt(ds, i, e);
      TookExactlyWhen(ds, e);
      var j :| 0 <= j < |es| && es[j] == e;
    }
    forall id | id in IdsWithin(es, taskType, station, h, kind) ensures id in IdsLanded(ds, kind, taskType, station, h) {
      var j :| 0 <= j < |es| && es[j].taskType == taskType && es[j].station == station
               && h <= es[j].at < h + 3_600_000_000_000 && kind(es[j].kind) && es[j].id == id;
      TookExactlyWhen(ds, es[j]);
      var i :| 0 <= i < |ds| && TookAt(ds, i, es[j]);
      LandsAsIsTook(ds, i, kind, taskType, station, h);
    }
  }

  /**
   Over any deliveries, with every fault: each counter of a row is the number of distinct ids whose recording delivery
   landed with a message of its kind - a manifest only when resolved - for the row's path, station and hour.
   */
  lemma RowsCountMessages(ds: seq<Delivery>, taskType: string, station: string, h: Instant)
    requires h % 3_600_000_000_000 == 0
    ensures var a := RowOf(DeliverAll(ds).tables.rollup, RowKey(taskType, station, h));
            && a.completions == |IdsLanded(ds, (k: Kind) => k.TaskCompleted?, taskType, station, h)|
            && a.leaseExpiries == |IdsLanded(ds, (k: Kind) => k.LeaseExpired?, taskType, station, h)|
            && a.weighCheckDiverts == |IdsLanded(ds, (k: Kind) => k.WeightDiscrepancy?, taskType, station, h)|
            && a.manifested == |IdsLanded(ds, (k: Kind) => k.PackageManifested?, taskType, station, h)|
            && a.onTime == |IdsLanded(ds, (k: Kind) => k.PackageManifested? && k.onTime, taskType, station, h)|
            && a.late == |IdsLanded(ds, (k: Kind) => k.PackageManifested? && !k.onTime, taskType, station, h)|
  {
    AtMostOnce(ds);
    var es, k := TookEffect(ds), RowKey(taskType, station, h);
    PgCountsOfDistinct(es, k);
    CountsOfRow(ds, RowOf(PgOf(es).rollup, k), taskType, station, h);
  }

  lemma CountsOfRow(ds: seq<Delivery>, a: Acc, taskType: string, station: string, h: Instant)
    requires h % 3_600_000_000_000 == 0 && Counts(a, TookEffect(ds), RowKey(taskType, station, h))
    ensures a.completions == |IdsLanded(ds, (k: Kind) => k.TaskCompleted?, taskType, station, h)|
    ensures a.leaseExpiries == |IdsLanded(ds, (k: Kind) => k.LeaseExpired?, taskType, station, h)|
    ensures a.weighCheckDiverts == |IdsLanded(ds, (k: Kind) => k.WeightDiscrepancy?, taskType, station, h)|
    ensures a.manifested == |IdsLanded(ds, (k: Kind) => k.PackageManifested?, taskType, station, h)|
    ensures a.onTime == |IdsLanded(ds, (k: Kind) => k.PackageManifested? && k.onTime, taskType, station, h)|
    ensures a.late == |IdsLanded(ds, (k: Kind) => k.PackageManifested? && !k.onTime, taskType, station, h)|
  {
    OneCount(ds, COMPLETES, (k: Kind) => k.TaskCompleted?, taskType, station, h);
    OneCount(ds, EXPIRES, (k: Kind) => k.LeaseExpired?, taskType, station, h);
    OneCount(ds, DIVERTS, (k: Kind) => k.WeightDiscrepancy?, taskType, station, h);
    OneCount(ds, MANIFESTS, (k: Kind) => k.PackageManifested?, taskType, station, h);
    OneCount(ds, ON_TIME, (k: Kind) => k.PackageManifested? && k.onTime, taskType, station, h);
    OneCount(ds, LATE, (k: Kind) => k.PackageManifested? && !k.onTime, taskType, station, h);
  }

  lemma OneCount(ds: seq<Delivery>, p: Kind -> bool, q: Kind -> bool, taskType: string, station: string, h: Instant)
    requires h % 3_600_000_000_000 == 0 && forall k :: p(k) == q(k)
    ensures IdsFor(TookEffect(ds), RowKey(taskType, station, h), p) == IdsLanded(ds, q, taskType, station, h)
  {
    IdsOfHour(TookEffect(ds), taskType, station, h, p);
    SameIds(TookEffect(ds), taskType, station, h, p, q);
    IdsLandedAreTaken(ds, q, taskType, station, h);
  }
}

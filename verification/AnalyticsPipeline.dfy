/**
 The analytics consumer (internal/adapters/inbound/kafka/analytics_consumer.go) and the whole pipeline from the
 outbox through the relay, the broker's log and the consumer to the read model.
 */
module AnalyticsPipeline {
  import opened Prelude
  import opened Interleaving
  import opened Throughput
  import opened Projection
  import opened ThroughputLaws
  import Relay = OutboxRelay

  const TASK_TYPE_SLAM := "SLAM"

  /** The payload fields a projecting event carries. */
  datatype Payload = Payload(kind: Kind, taskType: string, station: string, resolved: bool)

  /** A message on the analytics topic; `payload` is None when its data does not decode. */
  datatype Message =
    | NotCloudEvent
    | OtherType
    | Projecting(id: string, at: Instant, payload: Option<Payload>)

  /** The event a message is projected as: none for undecodable data or an unresolved manifest. */
  function EventOf(msg: Message): Option<Event> {
    match msg
    case Projecting(id, at, Some(p)) =>
      if p.kind.PackageManifested? && !p.resolved then None
      else Some(Event(id, p.kind, if p.kind.WeightDiscrepancy? then TASK_TYPE_SLAM else p.taskType, p.station, at))
    case _ => None
  }

  /** MarkProcessed: an error normally means that nothing was recorded, but the insert may have taken effect. */
  datatype MarkFault = MarkOk | MarkError | MarkErrorRecorded

  datatype Fault = Fault(mark: MarkFault, apply: TxFault)

  datatype Consumed = Consumed(marked: set<string>, tables: Pg)

  const FRESH_CONSUMER := Consumed({}, EMPTY_PG)

  /** One delivery: mark the id first, then apply. */
  function Deliver(c: Consumed, msg: Message, fault: Fault): (Consumed, bool) {
    match msg
    case NotCloudEvent => (c, false)
    case OtherType => (c, true)
    case Projecting(id, _, payload) =>
      if fault.mark == MarkError then (c, false)
      else if fault.mark == MarkErrorRecorded then (c.(marked := c.marked + {id}), false)
      else if id in c.marked then (c, true)
      else
        var c' := c.(marked := c.marked + {id});
        if payload.None? then (c', false)
        else if EventOf(msg).None? then (c', true)
        else
          var (tables, ok) := ApplyTx(c.tables, EventOf(msg).value, fault.apply);
          (c'.(tables := tables), ok)
  }

  class AnalyticsConsumer {
    const projection: PostgresProjection
    var marked: set<string>

    constructor (projection: PostgresProjection)
      ensures this.projection == projection && marked == {}
    {
      this.projection := projection;
      marked := {};
    }

    /** ConsumedEventsRepo.MarkProcessed: whether this call newly recorded the id. */
    method MarkProcessed(id: string, fault: MarkFault) returns (r: Result<bool, ()>)
      modifies this`marked
      ensures marked == if fault == MarkError then old(marked) else old(marked) + {id}
      ensures r == if fault == MarkOk then Ok(id !in old(marked)) else Err(())
    {
      if fault == MarkError {
        return Err(());
      }
      var isNew := id !in marked;
      marked := marked + {id};
      r := if fault == MarkOk then Ok(isNew) else Err(());
    }

    method HandleMessage(msg: Message, fault: Fault) returns (ok: bool)
      modifies this`marked, projection
      ensures (Consumed(marked, projection.tables), ok) == Deliver(Consumed(old(marked), old(projection.tables)), msg, fault)
    {
      if msg.NotCloudEvent? {
        return false;
      }
      if msg.OtherType? {
        return true;
      }
      var isNew := MarkProcessed(msg.id, fault.mark);
      if isNew.Err? {
        return false;
      }
      if !isNew.value {
        assert marked == old(marked);
        return true;
      }
      if msg.payload.None? {
        return false;
      }
      var e := EventOf(msg);
      if e.None? {
        return true;
      }
      ok := projection.Apply(e.value, fault.apply);
    }
  }

  // ---- The consumer over a stream of deliveries ----

  datatype Delivery = Delivery(msg: Message, fault: Fault)

  function DeliverAll(ds: seq<Delivery>): Consumed
    decreases |ds|
  {
    if ds == [] then FRESH_CONSUMER
    else Deliver(DeliverAll(ds[..|ds| - 1]), ds[|ds| - 1].msg, ds[|ds| - 1].fault).0
  }

  /** This delivery is the one that gets the message's id past the gate and has an event to apply. */
  predicate Admits(c: Consumed, d: Delivery) {
    d.msg.Projecting? && d.fault.mark == MarkOk && d.msg.id !in c.marked && EventOf(d.msg).Some?
  }

  /** The events admitted, in order of admission. */
  function Admitted(ds: seq<Delivery>): seq<Event>
    decreases |ds|
  {
    if ds == [] then []
    else
      var init, last := ds[..|ds| - 1], ds[|ds| - 1];
      if Admits(DeliverAll(init), last) then Admitted(init) + [EventOf(last.msg).value] else Admitted(init)
  }

  /** The admitted events whose transaction took effect. */
  function TookEffect(ds: seq<Delivery>): seq<Event>
    decreases |ds|
  {
    if ds == [] then []
    else
      var init, last := ds[..|ds| - 1], ds[|ds| - 1];
      var c := DeliverAll(init);
      if Admits(c, last) && !Strikes(c.tables, EventOf(last.msg).value, last.fault.apply)
      then TookEffect(init) + [EventOf(last.msg).value] else TookEffect(init)
  }

  lemma {:induction false} AdmittedIds(ds: seq<Delivery>)
    ensures Ids(TookEffect(ds)) <= Ids(Admitted(ds)) <= DeliverAll(ds).marked
    ensures DistinctIds(Admitted(ds)) && DistinctIds(TookEffect(ds))
    decreases |ds|
  {
    if ds != [] {
      var init, last := ds[..|ds| - 1], ds[|ds| - 1];
      AdmittedIds(init);
      if Admits(DeliverAll(init), last) {
        AdmittedStep(DeliverAll(init), last);
        IdsAppend(Admitted(init), EventOf(last.msg).value);
        IdsAppend(TookEffect(init), EventOf(last.msg).value);
      } else {
        RefusedStep(DeliverAll(init), last);
        assert Admitted(ds) == Admitted(init) && TookEffect(ds) == TookEffect(init);
      }
    }
  }

  /**
   At most once: the read model is the fold of some admitted events, each admitted id once. An event whose
   transaction failed is not in it and, its id being marked, never will be.
   */
  lemma {:induction false} AtMostOnce(ds: seq<Delivery>)
    ensures DeliverAll(ds).tables == PgOf(TookEffect(ds))
    ensures Ids(TookEffect(ds)) <= Ids(Admitted(ds)) <= DeliverAll(ds).marked
    ensures DistinctIds(Admitted(ds)) && DistinctIds(TookEffect(ds))
    decreases |ds|
  {
    AdmittedIds(ds);
    if ds != [] {
      var init, last := ds[..|ds| - 1], ds[|ds| - 1];
      AtMostOnce(init);
      if Admits(DeliverAll(init), last) {
        AdmittedStep(DeliverAll(init), last);
        Snoc(TookEffect(init), EventOf(last.msg).value);
      } else {
        RefusedStep(DeliverAll(init), last);
        assert TookEffect(ds) == TookEffect(init);
      }
    }
  }

  lemma AdmittedStep(c: Consumed, d: Delivery)
    requires Admits(c, d)
    ensures var c', e := Deliver(c, d.msg, d.fault).0, EventOf(d.msg).value;
            && e.id == d.msg.id && c'.marked == c.marked + {e.id}
            && c'.tables == if Strikes(c.tables, e, d.fault.apply) then c.tables else ApplyPg(c.tables, e)
  {
  }

  lemma RefusedStep(c: Consumed, d: Delivery)
    requires !Admits(c, d)
    ensures var c' := Deliver(c, d.msg, d.fault).0;
            c.marked <= c'.marked && c'.tables == c.tables
  {
  }

  lemma IdsAppend(es: seq<Event>, e: Event)
    ensures Ids(es + [e]) == Ids(es) + {e.id}
    ensures DistinctIds(es) && e.id !in Ids(es) ==> DistinctIds(es + [e])
  {
    assert (es + [e])[..|es|] == es;
    IdsSnoc(es + [e]);
    if DistinctIds(es) && e.id !in Ids(es) {
      assert forall i :: 0 <= i < |es| ==> es[i].id in Ids(es);
    }
  }

  /** No admitting delivery met a fault in its transaction. */
  predicate NoApplyFailed(ds: seq<Delivery>)
    decreases |ds|
  {
    ds == [] ||
    (var init, last := ds[..|ds| - 1], ds[|ds| - 1];
     var c := DeliverAll(init);
     NoApplyFailed(init) && (Admits(c, last) ==> !Strikes(c.tables, EventOf(last.msg).value, last.fault.apply)))
  }

  /**
   Past the gate: every admitted event is in the read model if and only if no admitting delivery met a fault in its
   transaction. Marking before applying is what makes a failed apply final.
   */
  lemma AdmittedAllCountExactlyWhen(ds: seq<Delivery>)
    ensures DeliverAll(ds).tables == PgOf(Admitted(ds)) <==> NoApplyFailed(ds)
  {
    AtMostOnce(ds);
    LossIsVisible(ds);
    Seen(TookEffect(ds));
    Seen(Admitted(ds));
  }

  /** An admitted event that took no effect. */
  ghost predicate SomeLost(admitted: seq<Event>, took: seq<Event>) {
    exists id :: id in Ids(admitted) && id !in Ids(took)
  }

  lemma {:induction false} LossIsVisible(ds: seq<Delivery>)
    ensures if NoApplyFailed(ds) then TookEffect(ds) == Admitted(ds) else SomeLost(Admitted(ds), TookEffect(ds))
    decreases |ds|
  {
    if ds != [] {
      var init, last := ds[..|ds| - 1], ds[|ds| - 1];
      LossIsVisible(init);
      AdmittedIds(init);
      if Admits(DeliverAll(init), last) {
        var e := EventOf(last.msg).value;
        IdsAppend(Admitted(init), e);
        IdsAppend(TookEffect(init), e);
        if SomeLost(Admitted(init), TookEffect(init)) {
          var id :| id in Ids(Admitted(init)) && id !in Ids(TookEffect(init));
          assert id in Ids(Admitted(ds)) && id !in Ids(TookEffect(ds));
        } else if Strikes(DeliverAll(init).tables, e, last.fault.apply) {
          assert e.id in Ids(Admitted(ds)) && e.id !in Ids(TookEffect(ds));
        }
      }
    }
  }

  // ---- Every delivered event ----

  /** A delivery that leaves its id recorded, whether or not it says so. */
  predicate Records(d: Delivery, id: string) {
    d.msg.Projecting? && d.msg.id == id && d.fault.mark != MarkError
  }

  /** The first delivery that records the id. It decides the event's fate: a later one is turned away at the gate. */
  function Recorder(ds: seq<Delivery>, id: string): (r: Option<nat>)
    ensures r.Some? ==> r.value < |ds| && Records(ds[r.value], id)
    decreases |ds|
  {
    if ds == [] then None
    else if Recorder(ds[..|ds| - 1], id).Some? then Recorder(ds[..|ds| - 1], id)
    else if Records(ds[|ds| - 1], id) then Some(|ds| - 1)
    else None
  }

  /** The delivery was told that its id is new, carried an event, and its transaction took effect. */
  predicate Lands(ds: seq<Delivery>, i: nat)
    requires i < |ds|
  {
    ds[i].fault.mark == MarkOk && EventOf(ds[i].msg).Some?
    && !Strikes(DeliverAll(ds[..i]).tables, EventOf(ds[i].msg).value, ds[i].fault.apply)
  }

  predicate Landed(ds: seq<Delivery>, id: string) {
    Recorder(ds, id).Some? && Lands(ds, Recorder(ds, id).value)
  }

  lemma DeliverMarks(c: Consumed, d: Delivery, id: string)
    ensures id in Deliver(c, d.msg, d.fault).0.marked <==> id in c.marked || Records(d, id)
  {
  }

  lemma {:induction false} MarkedExactlyWhen(ds: seq<Delivery>, id: string)
    ensures id in DeliverAll(ds).marked <==> Recorder(ds, id).Some?
    decreases |ds|
  {
    if ds != [] {
      MarkedExactlyWhen(ds[..|ds| - 1], id);
      DeliverMarks(DeliverAll(ds[..|ds| - 1]), ds[|ds| - 1], id);
    }
  }

  lemma LandsEarly(ds: seq<Delivery>, i: nat)
    requires i + 1 < |ds|
    ensures Lands(ds[..|ds| - 1], i) == Lands(ds, i)
  {
    assert ds[..|ds| - 1][..i] == ds[..i];
  }

  lemma LandsLast(ds: seq<Delivery>)
    requires ds != []
    ensures var c, d := DeliverAll(ds[..|ds| - 1]), ds[|ds| - 1];
            Lands(ds, |ds| - 1)
            <==> d.fault.mark == MarkOk && EventOf(d.msg).Some? && !Strikes(c.tables, EventOf(d.msg).value, d.fault.apply)
  {
  }

  /** An id is in the read model exactly when the delivery that recorded it landed, whatever befell all the others. */
  lemma {:induction false} CountsExactlyWhen(ds: seq<Delivery>, id: string)
    ensures id in DeliverAll(ds).tables.processed <==> Landed(ds, id)
    decreases |ds|
  {
    if ds != [] {
      var init, last := ds[..|ds| - 1], ds[|ds| - 1];
      CountsExactlyWhen(init, id);
      MarkedExactlyWhen(init, id);
      MarkedCoversProcessed(init, id);
      LandsLast(ds);
      if Recorder(init, id).Some? {
        LandsEarly(ds, Recorder(init, id).value);
      }
      if Admits(DeliverAll(init), last) {
        AdmittedStep(DeliverAll(init), last);
      } else {
        RefusedStep(DeliverAll(init), last);
      }
    }
  }

  lemma MarkedCoversProcessed(ds: seq<Delivery>, id: string)
    ensures id in DeliverAll(ds).tables.processed ==> id in DeliverAll(ds).marked
  {
    AtMostOnce(ds);
    Seen(TookEffect(ds));
  }

  /** Some delivery carried this event. */
  predicate Delivered(ds: seq<Delivery>, id: string) {
    exists i :: 0 <= i < |ds| && EventOf(ds[i].msg).Some? && ds[i].msg.id == id
  }

  /**
   Exactly once, exactly when: the read model is the fold of distinct events, and every delivered event is among them
   if and only if each one's recording delivery landed. An erring mark loses an event as a failed apply does: with the
   id recorded for good, without it unless the message is delivered again.
   */
  lemma ExactlyOnceExactlyWhen(ds: seq<Delivery>)
    ensures DeliverAll(ds).tables == PgOf(TookEffect(ds)) && DistinctIds(TookEffect(ds))
    ensures (forall id :: Delivered(ds, id) ==> id in Ids(TookEffect(ds))) <==> (forall id :: Delivered(ds, id) ==> Landed(ds, id))
  {
    AtMostOnce(ds);
    Seen(TookEffect(ds));
    forall id ensures id in Ids(TookEffect(ds)) <==> Landed(ds, id) {
      CountsExactlyWhen(ds, id);
    }
  }

  // ---- End to end ----

  type Rows = seq<Relay.OutboxRow<Message>>

  lemma WithinFirst(ids: seq<nat>, n: nat)
    requires Within(ids, n)
    ensures Within(FirstOccurrences(ids), n)
  {
  }

  /** The events in a list of outbox row ids, in that order. */
  function EventsAt(rows: Rows, ids: seq<nat>): seq<Event>
    requires Within(ids, |rows|)
    decreases |ids|
  {
    if ids == [] then []
    else
      var init, last := ids[..|ids| - 1], ids[|ids| - 1];
      if EventOf(rows[last].message).Some? then EventsAt(rows, init) + [EventOf(rows[last].message).value] else EventsAt(rows, init)
  }

  /** Event ids are minted per row when it is encoded. */
  predicate FreshIds(rows: Rows) {
    forall i, j :: 0 <= i < |rows| && 0 <= j < |rows| && i != j && rows[i].message.Projecting? && rows[j].message.Projecting? ==>
      rows[i].message.id != rows[j].message.id
  }

  lemma {:induction false} EventsAtIds(rows: Rows, ids: seq<nat>, id: nat)
    requires FreshIds(rows) && id < |rows| && Within(ids, |rows|)
    requires EventOf(rows[id].message).Some?
    ensures rows[id].message.id in Ids(EventsAt(rows, ids)) <==> id in ids
    decreases |ids|
  {
    if ids != [] {
      var init, last := ids[..|ids| - 1], ids[|ids| - 1];
      EventsAtIds(rows, init, id);
      assert ids == init + [last];
      if EventOf(rows[last].message).Some? {
        IdsAppend(EventsAt(rows, init), EventOf(rows[last].message).value);
      }
    }
  }

  /** Redelivered rows are redelivered events: the first occurrences of one are those of the other. */
  lemma {:induction false} FirstRowsFirstEvents(rows: Rows, ids: seq<nat>)
    requires FreshIds(rows) && Within(ids, |rows|)
    ensures Within(FirstOccurrences(ids), |rows|)
    ensures Applied(EventsAt(rows, ids)) == EventsAt(rows, FirstOccurrences(ids))
    decreases |ids|
  {
    WithinFirst(ids, |rows|);
    if ids != [] {
      var init, last := ids[..|ids| - 1], ids[|ids| - 1];
      FirstRowsFirstEvents(rows, init);
      assert ids == init + [last];
      FirstOccurrencesSnoc(init, last);
      var f := FirstOccurrences(init);
      assert (f + [last])[..|f|] == f;
      if EventOf(rows[last].message).Some? {
        EventsAtIds(rows, init, last);
        Snoc(EventsAt(rows, init), EventOf(rows[last].message).value);
      }
    }
  }

  /** What a reader that may rewind has read: the log entries at the positions it visited. */
  function Through(log: seq<nat>, visits: seq<nat>): seq<nat>
    requires Within(visits, |log|)
  {
    seq(|visits|, i requires 0 <= i < |visits| => log[visits[i]])
  }

  lemma ThroughSnoc(log: seq<nat>, visits: seq<nat>, v: nat)
    requires Within(visits, |log|) && v < |log|
    ensures Within(visits + [v], |log|) && Through(log, visits + [v]) == Through(log, visits) + [log[v]]
    ensures v in visits ==> log[v] in Through(log, visits)
  {
    if v in visits {
      var i :| 0 <= i < |visits| && visits[i] == v;
      assert Through(log, visits)[i] == log[v];
    }
  }

  /** A new entry at the end of two streams with the same first occurrences. */
  lemma SameFirstSnoc(xs: seq<nat>, ys: seq<nat>, e: nat)
    requires FirstOccurrences(xs) == FirstOccurrences(ys)
    ensures FirstOccurrences(xs + [e]) == FirstOccurrences(ys + [e])
    ensures e in xs ==> FirstOccurrences(xs + [e]) == FirstOccurrences(ys)
  {
    FirstOccurrencesSnoc(xs, e);
    FirstOccurrencesSnoc(ys, e);
    assert e in xs <==> e in FirstOccurrences(xs);
    assert e in ys <==> e in FirstOccurrences(ys);
  }

  /** Rewinding repeats entries but never brings one forward. */
  lemma {:induction false} RewindsRepeat(log: seq<nat>, visits: seq<nat>, m: nat)
    requires Relay.SentUpTo(visits, m) && m <= |log| && Within(visits, |log|)
    ensures FirstOccurrences(Through(log, visits)) == FirstOccurrences(log[..m])
    decreases |visits|
  {
    if visits == [] {
      assert m == 0;
    } else {
      var init, last := visits[..|visits| - 1], visits[|visits| - 1];
      assert visits == init + [last];
      ThroughSnoc(log, init, last);
      if last in init {
        FirstOccurrencesSnoc(init, last);
        RewindsRepeat(log, init, m);
        SameFirstSnoc(Through(log, init), log[..m], log[last]);
      } else {
        NewIsNext(init, last, m);
        RewindsRepeat(log, init, m - 1);
        assert log[..m] == log[..m - 1] + [log[m - 1]];
        SameFirstSnoc(Through(log, init), log[..m - 1], log[m - 1]);
      }
    }
  }

  /** A prefix of an in-order log is an in-order log. */
  lemma {:induction false} SentPrefix(log: seq<nat>, k: nat, m: nat) returns (k': nat)
    requires Relay.SentUpTo(log, k) && m <= |log|
    ensures Relay.SentUpTo(log[..m], k') && k' <= k && (m == |log| ==> k' == k)
    decreases |log|
  {
    if m == |log| {
      assert log[..m] == log;
      k' := k;
    } else {
      var init, last := log[..|log| - 1], log[|log| - 1];
      assert log == init + [last] && init[..m] == log[..m];
      if last in init {
        FirstOccurrencesSnoc(init, last);
        k' := SentPrefix(init, k, m);
      } else {
        NewIsNext(init, last, k);
        k' := SentPrefix(init, k - 1, m);
      }
    }
  }

  /** The deliveries carry the messages of these outbox rows. */
  predicate Carries(rows: Rows, ids: seq<nat>, ds: seq<Delivery>) {
    && |ds| == |ids| && Within(ids, |rows|)
    && forall i :: 0 <= i < |ds| ==> ds[i].msg == rows[ids[i]].message
  }

  /** The rows whose recording delivery landed, in the order of those deliveries. */
  function LandedRows(ids: seq<nat>, ds: seq<Delivery>): seq<nat>
    requires |ds| == |ids|
    decreases |ds|
  {
    if ds == [] then []
    else
      var init, last := ds[..|ds| - 1], ds[|ds| - 1];
      var before := LandedRows(ids[..|ids| - 1], init);
      var c := DeliverAll(init);
      if Admits(c, last) && !Strikes(c.tables, EventOf(last.msg).value, last.fault.apply) then before + [ids[|ids| - 1]] else before
  }

  lemma CarriesInit(rows: Rows, ids: seq<nat>, ds: seq<Delivery>)
    requires Carries(rows, ids, ds) && ds != []
    ensures Carries(rows, ids[..|ids| - 1], ds[..|ds| - 1])
    ensures ids == ids[..|ids| - 1] + [ids[|ids| - 1]]
  {
  }

  lemma {:induction false} LandedRowsFold(rows: Rows, ids: seq<nat>, ds: seq<Delivery>)
    requires Carries(rows, ids, ds)
    ensures Within(LandedRows(ids, ds), |rows|)
    ensures EventsAt(rows, LandedRows(ids, ds)) == TookEffect(ds)
    ensures forall i :: i in LandedRows(ids, ds) ==> i in ids && i < |rows| && EventOf(rows[i].message).Some?
    decreases |ds|
  {
    if ds != [] {
      CarriesInit(rows, ids, ds);
      LandedRowsFold(rows, ids[..|ids| - 1], ds[..|ds| - 1]);
      var landed := LandedRows(ids, ds);
      assert landed != LandedRows(ids[..|ids| - 1], ds[..|ds| - 1]) ==> landed[..|landed| - 1] == LandedRows(ids[..|ids| - 1], ds[..|ds| - 1]);
    }
  }

  lemma LandedRowsExactlyWhen(rows: Rows, ids: seq<nat>, ds: seq<Delivery>, i: nat)
    requires Carries(rows, ids, ds) && FreshIds(rows) && i < |rows| && EventOf(rows[i].message).Some?
    ensures i in LandedRows(ids, ds) <==> Landed(ds, rows[i].message.id)
  {
    LandedRowsFold(rows, ids, ds);
    EventsAtIds(rows, LandedRows(ids, ds), i);
    AtMostOnce(ds);
    Seen(TookEffect(ds));
    CountsExactlyWhen(ds, rows[i].message.id);
  }

  /** Every mark either answered or recorded its id. */
  predicate AllRecord(ds: seq<Delivery>) {
    forall i :: 0 <= i < |ds| ==> ds[i].fault.mark != MarkError
  }

  /** Then a row is past the gate exactly when it has been delivered. */
  lemma {:induction false} GateIsDelivered(rows: Rows, ids: seq<nat>, ds: seq<Delivery>, i: nat)
    requires Carries(rows, ids, ds) && FreshIds(rows) && AllRecord(ds) && i < |rows| && rows[i].message.Projecting?
    ensures rows[i].message.id in DeliverAll(ds).marked <==> i in ids
    decreases |ds|
  {
    if ds != [] {
      var init, last := ids[..|ids| - 1], ids[|ids| - 1];
      var id := rows[i].message.id;
      CarriesInit(rows, ids, ds);
      GateIsDelivered(rows, init, ds[..|ds| - 1], i);
      DeliverMarks(DeliverAll(ds[..|ds| - 1]), ds[|ds| - 1], id);
      assert i in ids <==> i in init || i == last;
      assert Records(ds[|ds| - 1], id) <==> i == last;
    }
  }

  /** And the rows land in outbox order, since each is recorded by its first delivery. */
  lemma {:induction false} LandsInOrder(rows: Rows, ids: seq<nat>, ds: seq<Delivery>, k: nat)
    requires Carries(rows, ids, ds) && FreshIds(rows) && AllRecord(ds) && FirstOccurrences(ids) == UpTo(k)
    ensures Increasing(LandedRows(ids, ds)) && Within(LandedRows(ids, ds), k)
    decreases |ds|
  {
    if ds != [] {
      CarriesInit(rows, ids, ds);
      var init, last := ids[..|ids| - 1], ids[|ids| - 1];
      if last in init {
        FirstOccurrencesSnoc(init, last);
        LandsInOrder(rows, init, ds[..|ds| - 1], k);
        if rows[last].message.Projecting? {
          GateIsDelivered(rows, init, ds[..|ds| - 1], last);
        }
      } else {
        NewIsNext(init, last, k);
        LandsInOrder(rows, init, ds[..|ds| - 1], k - 1);
      }
    }
  }

  /** No fault in any delivery. */
  predicate Faultless(ds: seq<Delivery>) {
    forall i :: 0 <= i < |ds| ==> ds[i].fault == Fault(MarkOk, NoFault)
  }

  lemma {:induction false} FaultlessLandsAll(rows: Rows, ids: seq<nat>, ds: seq<Delivery>)
    requires Carries(rows, ids, ds) && FreshIds(rows) && Faultless(ds)
    ensures Within(FirstOccurrences(ids), |rows|)
    ensures TookEffect(ds) == EventsAt(rows, FirstOccurrences(ids))
    decreases |ds|
  {
    WithinFirst(ids, |rows|);
    if ds != [] {
      CarriesInit(rows, ids, ds);
      var init, last := ids[..|ids| - 1], ids[|ids| - 1];
      FaultlessLandsAll(rows, init, ds[..|ds| - 1]);
      FirstOccurrencesSnoc(init, last);
      var f := FirstOccurrences(init);
      assert (f + [last])[..|f|] == f;
      if rows[last].message.Projecting? {
        GateIsDelivered(rows, init, ds[..|ds| - 1], last);
      }
    }
  }

  /** What a reader with rewinds has been handed: some first rows of the outbox, seen for the first time in order. */
  lemma ReadInOrder(acts: seq<Relay.Act<Message>>, size: nat, visits: seq<nat>, m: nat) returns (n: nat)
    requires m <= |Relay.Run(acts, size).1| && Relay.SentUpTo(visits, m)
    requires Within(visits, |Relay.Run(acts, size).1|)
    ensures var (rows, log) := Relay.Run(acts, size);
            && n <= |rows| && Relay.SentUpTo(log[..m], n)
            && Within(Through(log, visits), |rows|)
            && FirstOccurrences(Through(log, visits)) == UpTo(n)
  {
    var (rows, log) := Relay.Run(acts, size);
    var p, k := Relay.DrainsInOrder(acts, size);
    n := SentPrefix(log, k, m);
    RewindsRepeat(log, visits, m);
    SentBelow(log, k, |rows|);
    var ids := Through(log, visits);
    assert forall i :: 0 <= i < |ids| ==> ids[i] == log[visits[i]];
  }

  /**
   End to end, from outbox to read model. Whatever sends, marks, commits and relays failed, however often the reader
   rewound, and whatever failed in the consumer: of the first m log entries, read in order but for the rewinds, the
   sink's first n outbox rows reach the consumer, and the read model is the fold of exactly those of them whose
   recording delivery landed, each once. They count in outbox order when every mark answered or recorded, and all n of
   them count when the consumer met no fault.
   */
  lemma EndToEnd(acts: seq<Relay.Act<Message>>, size: nat, visits: seq<nat>, m: nat, ds: seq<Delivery>)
    returns (n: nat, landed: seq<nat>)
    requires FreshIds(Relay.Run(acts, size).0)
    requires m <= |Relay.Run(acts, size).1| && Relay.SentUpTo(visits, m)
    requires Within(visits, |Relay.Run(acts, size).1|)
    requires Carries(Relay.Run(acts, size).0, Through(Relay.Run(acts, size).1, visits), ds)
    ensures var (rows, log) := Relay.Run(acts, size);
            && n <= |rows| && Relay.SentUpTo(log[..m], n)
            && Within(landed, n)
            && DeliverAll(ds).tables == PgOf(EventsAt(rows, landed))
            && (forall i :: 0 <= i < |rows| && EventOf(rows[i].message).Some? ==>
                  (i in landed <==> Landed(ds, rows[i].message.id)))
            && (AllRecord(ds) ==> Increasing(landed))
            && (Faultless(ds) ==> DeliverAll(ds).tables == PgOf(EventsAt(rows, UpTo(n))))
    ensures DistinctIds(EventsAt(Relay.Run(acts, size).0, landed))
  {
    var (rows, log) := Relay.Run(acts, size);
    n := ReadInOrder(acts, size, visits, m);
    var ids := Through(log, visits);
    landed := LandedRows(ids, ds);
    LandedRowsFold(rows, ids, ds);
    AtMostOnce(ds);
    forall i | 0 <= i < |landed| ensures landed[i] < n {
      assert landed[i] in FirstOccurrences(ids);
      UpToMembers(n, landed[i]);
    }
    forall i | 0 <= i < |rows| && EventOf(rows[i].message).Some? ensures i in landed <==> Landed(ds, rows[i].message.id) {
      LandedRowsExactlyWhen(rows, ids, ds, i);
    }
    if AllRecord(ds) {
      LandsInOrder(rows, ids, ds, n);
    }
    if Faultless(ds) {
      FaultlessLandsAll(rows, ids, ds);
    }
  }

  /** The same for both stores fed without a gate of their own: their own deduplication does it. */
  lemma EitherStoreEndToEnd(acts: seq<Relay.Act<Message>>, size: nat, visits: seq<nat>, m: nat) returns (n: nat)
    requires FreshIds(Relay.Run(acts, size).0)
    requires m <= |Relay.Run(acts, size).1| && Relay.SentUpTo(visits, m)
    requires Within(visits, |Relay.Run(acts, size).1|)
    ensures var (rows, log) := Relay.Run(acts, size);
            && n <= |rows| && Relay.SentUpTo(log[..m], n)
            && Within(Through(log, visits), |rows|)
            && MemOf(EventsAt(rows, Through(log, visits))) == MemOf(EventsAt(rows, UpTo(n)))
            && PgOf(EventsAt(rows, Through(log, visits))) == PgOf(EventsAt(rows, UpTo(n)))
  {
    var (rows, log) := Relay.Run(acts, size);
    n := ReadInOrder(acts, size, visits, m);
    var ids := Through(log, visits);
    FirstRowsFirstEvents(rows, ids);
    RedeliveriesVanish(EventsAt(rows, ids));
    FirstRowsFirstEvents(rows, UpTo(n));
    FirstOfUpTo(n);
    RedeliveriesVanish(EventsAt(rows, UpTo(n)));
  }

  lemma SentBelow(log: seq<nat>, k: nat, n: nat)
    requires Relay.SentUpTo(log, k) && k <= n
    ensures Within(log, n)
  {
    forall i | 0 <= i < |log| ensures log[i] < n {
      assert log[i] in FirstOccurrences(log);
      UpToMembers(k, log[i]);
    }
  }

  lemma {:induction false} FirstOfUpTo(n: nat)
    ensures FirstOccurrences(UpTo(n)) == UpTo(n)
  {
    if n > 0 {
      FirstOfUpTo(n - 1);
      UpToSnoc(n - 1);
      FirstOccurrencesSnoc(UpTo(n - 1), n - 1);
      UpToMembers(n - 1, n - 1);
    }
  }

  // ---- Partitions ----

  const APPLY: (Pg, Event) -> Pg := (p, e) => ApplyPg(p, e)

  /** Two additions to the read model's rows commute. */
  lemma AddsCommute(rows: Rollup, k: RowKey, j: RowKey, a: Acc, b: Acc)
    ensures var ra, rb := rows[k := RowOf(rows, k).Plus(a)], rows[j := RowOf(rows, j).Plus(b)];
            ra[j := RowOf(ra, j).Plus(b)] == rb[k := RowOf(rb, k).Plus(a)]
  {
  }

  lemma AddedCommutes(rows: Rollup, a: Event, b: Event, ca: Option<Instant>, cb: Option<Instant>)
    ensures Added(Added(rows, a, ca), b, cb) == Added(Added(rows, b, cb), a, ca)
  {
    AddsCommute(rows, KeyOf(a), KeyOf(b), Delta(a, ca), Delta(b, cb));
  }

  predicate Independent(a: Event, b: Event) {
    a.id != b.id && (HasClaimId(a) && HasClaimId(b) ==> ClaimIdOf(a) != ClaimIdOf(b))
  }

  function PendingAfter(pending: map<ClaimId, Instant>, e: Event): map<ClaimId, Instant> {
    if e.kind.TaskClaimed? then pending[ClaimIdOf(e) := e.at]
    else if e.kind.TaskCompleted? then pending - {ClaimIdOf(e)}
    else pending
  }

  lemma PendingCommutes(pending: map<ClaimId, Instant>, a: Event, b: Event)
    requires Independent(a, b)
    ensures PendingAfter(PendingAfter(pending, a), b) == PendingAfter(PendingAfter(pending, b), a)
    ensures PendingInPg(PendingAfter(pending, a), b) == PendingInPg(pending, b)
    ensures PendingInPg(PendingAfter(pending, b), a) == PendingInPg(pending, a)
  {
  }

  /** The state after two fresh events, told apart from the order they came in. */
  lemma ApplyTwo(p: Pg, a: Event, b: Event)
    requires Independent(a, b) && a.id !in p.processed && b.id !in p.processed
    ensures ApplyPg(ApplyPg(p, a), b)
            == Pg(p.processed[a.id := a.at][b.id := b.at],
                  Added(Added(p.rollup, a, PendingInPg(p.pending, a)), b, PendingInPg(p.pending, b)),
                  PendingAfter(PendingAfter(p.pending, a), b))
  {
    PendingCommutes(p.pending, a, b);
    var pa := ApplyPg(p, a);
    assert pa == Pg(p.processed[a.id := a.at], Added(p.rollup, a, PendingInPg(p.pending, a)), PendingAfter(p.pending, a));
  }

  /** Events of different tasks, with ids of their own, may be applied in either order. */
  lemma ApplyCommutes(p: Pg, a: Event, b: Event)
    requires Independent(a, b)
    ensures ApplyPg(ApplyPg(p, a), b) == ApplyPg(ApplyPg(p, b), a)
  {
    if a.id in p.processed || b.id in p.processed {
      SeenIsSkipped(p, a, b);
      SeenIsSkipped(p, b, a);
    } else {
      FreshCommute(p, a, b);
    }
  }

  lemma FreshCommute(p: Pg, a: Event, b: Event)
    requires Independent(a, b) && a.id !in p.processed && b.id !in p.processed
    ensures ApplyPg(ApplyPg(p, a), b) == ApplyPg(ApplyPg(p, b), a)
  {
    var ca, cb := PendingInPg(p.pending, a), PendingInPg(p.pending, b);
    AddedCommutes(p.rollup, a, b, ca, cb);
    PendingCommutes(p.pending, a, b);
    var processed := p.processed[a.id := a.at][b.id := b.at];
    assert processed == p.processed[b.id := b.at][a.id := a.at];
    calc {
      ApplyPg(ApplyPg(p, a), b);
      { ApplyTwo(p, a, b); }
      Pg(processed, Added(Added(p.rollup, a, ca), b, cb), PendingAfter(PendingAfter(p.pending, a), b));
      Pg(processed, Added(Added(p.rollup, b, cb), a, ca), PendingAfter(PendingAfter(p.pending, b), a));
      { ApplyTwo(p, b, a); }
      ApplyPg(ApplyPg(p, b), a);
    }
  }

  lemma SeenIsSkipped(p: Pg, a: Event, b: Event)
    requires a.id != b.id
    ensures a.id in p.processed ==> ApplyPg(p, a) == p && ApplyPg(ApplyPg(p, b), a) == ApplyPg(p, b)
  {
  }

  lemma {:induction false} PgIsFold(es: seq<Event>)
    ensures PgOf(es) == Fold(APPLY, EMPTY_PG, es)
    decreases |es|
  {
    if es != [] {
      var init, last := es[..|es| - 1], es[|es| - 1];
      PgIsFold(init);
      FoldLast(APPLY, EMPTY_PG, es);
    }
  }

  /** The topic is keyed by task: two events of one task share a partition, and ids are unique. */
  ghost predicate KeyedByTask(part: Event -> nat, es: seq<Event>) {
    forall a, b :: a in es && b in es && part(a) != part(b) ==>
      Independent(a, b)
  }

  /**
   The read model does not depend on how the topic's partitions were interleaved: any two streams with the same
   order within each partition give the same tables.
   */
  lemma PartitionOrderIsIrrelevant(part: Event -> nat, xs: seq<Event>, ys: seq<Event>)
    requires KeyedByTask(part, xs)
    requires forall p :: Project(part, xs, p) == Project(part, ys, p)
    ensures PgOf(xs) == PgOf(ys)
  {
    forall s, a, b | a in xs && b in xs && part(a) != part(b) ensures APPLY(APPLY(s, a), b) == APPLY(APPLY(s, b), a) {
      ApplyCommutes(s, a, b);
    }
    MergeOrderIsIrrelevant(APPLY, part, EMPTY_PG, xs, ys);
    PgIsFold(xs);
    PgIsFold(ys);
  }
}

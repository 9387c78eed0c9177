/**
 The analytics pipeline over a topic of several partitions: the sink's log is split by the message key, each partition is
 read in its own order with rewinds, and the partitions interleave as they like.
 */
module PartitionedPipeline {
  import opened Prelude
  import opened Interleaving
  import opened Throughput
  import opened Projection
  import opened ThroughputLaws
  import opened AnalyticsPipeline
  import Relay = OutboxRelay

  /** One outbox row applied to the read model, by its id. */
  function RowStep(rows: Rows): (Pg, nat) -> Pg {
    (p: Pg, i: nat) => if i < |rows| && EventOf(rows[i].message).Some? then ApplyPg(p, EventOf(rows[i].message).value) else p
  }

  lemma {:induction false} RowFold(rows: Rows, ids: seq<nat>)
    requires Within(ids, |rows|)
    ensures PgOf(EventsAt(rows, ids)) == Fold(RowStep(rows), EMPTY_PG, ids)
    decreases |ids|
  {
    if ids != [] {
      var init, last := ids[..|ids| - 1], ids[|ids| - 1];
      RowFold(rows, init);
      FoldLast(RowStep(rows), EMPTY_PG, ids);
      if EventOf(rows[last].message).Some? {
        Snoc(EventsAt(rows, init), EventOf(rows[last].message).value);
      }
    }
  }

  /** The topic is keyed by task: rows of different partitions hold events that do not depend on each other. */
  predicate RowsKeyed(rows: Rows, part: nat -> nat) {
    forall i, j :: 0 <= i < |rows| && 0 <= j < |rows| && part(i) != part(j)
                   && EventOf(rows[i].message).Some? && EventOf(rows[j].message).Some? ==>
      Independent(EventOf(rows[i].message).value, EventOf(rows[j].message).value)
  }

  ghost predicate SamePartitions(part: nat -> nat, xs: seq<nat>, ys: seq<nat>) {
    forall p :: Project(part, xs, p) == Project(part, ys, p)
  }

  /** Rows in the same order within each partition give the same read model. */
  lemma RowOrderIsIrrelevant(rows: Rows, part: nat -> nat, xs: seq<nat>, ys: seq<nat>)
    requires RowsKeyed(rows, part) && Within(xs, |rows|) && Within(ys, |rows|) && SamePartitions(part, xs, ys)
    ensures PgOf(EventsAt(rows, xs)) == PgOf(EventsAt(rows, ys))
  {
    var step := RowStep(rows);
    forall s, a, b | a in xs && b in xs && part(a) != part(b) ensures step(step(s, a), b) == step(step(s, b), a) {
      if EventOf(rows[a].message).Some? && EventOf(rows[b].message).Some? {
        ApplyCommutes(s, EventOf(rows[a].message).value, EventOf(rows[b].message).value);
      }
    }
    MergeOrderIsIrrelevant(step, part, EMPTY_PG, xs, ys);
    RowFold(rows, xs);
    RowFold(rows, ys);
  }

  /** Rows that increase within each partition may be put in outbox order. */
  lemma OutboxOrderWillDo(rows: Rows, part: nat -> nat, ids: seq<nat>)
    requires RowsKeyed(rows, part) && Within(ids, |rows|)
    requires forall p :: Increasing(Project(part, ids, p))
    ensures Within(Among(|rows|, ids), |rows|)
    ensures PgOf(EventsAt(rows, ids)) == PgOf(EventsAt(rows, Among(|rows|, ids)))
  {
    var sorted := Among(|rows|, ids);
    AmongIncreases(|rows|, ids);
    forall p ensures Project(part, ids, p) == Project(part, sorted, p) {
      ProjectIncreasing(part, sorted, p);
      ProjectMembers(part, ids, p);
      ProjectMembers(part, sorted, p);
      SameIncreasing(Project(part, ids, p), Project(part, sorted, p));
    }
    RowOrderIsIrrelevant(rows, part, ids, sorted);
  }

  // ---- Reading partition by partition ----

  /** What was read of one partition: its log from the start, with rewinds. */
  ghost predicate ReadsLog(log: seq<nat>, read: seq<nat>) {
    exists visits, m :: ReadsThrough(log, read, visits, m)
  }

  ghost predicate ReadsThrough(log: seq<nat>, read: seq<nat>, visits: seq<nat>, m: nat) {
    m <= |log| && Relay.SentUpTo(visits, m) && Within(visits, |log|) && read == Through(log, visits)
  }

  /** Every partition of the topic is read in its own order, whatever the order between partitions. */
  ghost predicate ReadsTopic(part: nat -> nat, log: seq<nat>, ids: seq<nat>) {
    forall p :: ReadsLog(Project(part, log, p), Project(part, ids, p))
  }

  lemma PrefixIncreases(xs: seq<nat>, ys: seq<nat>)
    requires xs <= ys && Increasing(ys)
    ensures Increasing(xs)
  {
  }

  /** Then the rows of each partition are seen for the first time in outbox order. */
  lemma PartitionsIncrease(part: nat -> nat, log: seq<nat>, k: nat, ids: seq<nat>, p: nat)
    requires Relay.SentUpTo(log, k) && ReadsTopic(part, log, ids)
    ensures Increasing(Project(part, FirstOccurrences(ids), p))
  {
    var logP, idsP := Project(part, log, p), Project(part, ids, p);
    assert ReadsLog(logP, idsP);
    var visits, m :| ReadsThrough(logP, idsP, visits, m);
    RewindsRepeat(logP, visits, m);
    FirstOfPrefix(logP, m);
    ProjectFirst(part, log, p);
    ProjectFirst(part, ids, p);
    ProjectIncreasing(part, UpTo(k), p);
    PrefixIncreases(FirstOccurrences(idsP), FirstOccurrences(logP));
  }

  lemma ReadIsSent(part: nat -> nat, log: seq<nat>, ids: seq<nat>, i: nat)
    requires ReadsTopic(part, log, ids) && i in ids
    ensures i in log
  {
    var p := part(i);
    ProjectMembers(part, ids, p);
    ProjectMembers(part, log, p);
    var logP, idsP := Project(part, log, p), Project(part, ids, p);
    assert ReadsLog(logP, idsP);
    var visits, m :| ReadsThrough(logP, idsP, visits, m);
    var j :| 0 <= j < |idsP| && idsP[j] == i;
    assert logP[visits[j]] == i;
  }

  /** A row lands, if at all, when it is read for the first time. */
  lemma LandsOnFirstRead(rows: Rows, ids: seq<nat>, ds: seq<Delivery>)
    requires Carries(rows, ids, ds) && FreshIds(rows) && AllRecord(ds) && ds != []
    ensures var init, last := ids[..|ids| - 1], ids[|ids| - 1];
            var before := LandedRows(init, ds[..|ds| - 1]);
            LandedRows(ids, ds) == before || (LandedRows(ids, ds) == before + [last] && last !in init)
  {
    CarriesInit(rows, ids, ds);
    var last := ids[|ids| - 1];
    if rows[last].message.Projecting? {
      GateIsDelivered(rows, ids[..|ids| - 1], ds[..|ds| - 1], last);
    }
  }

  /** What the rows read by partition tell about the rows read before the last. */
  lemma SeenBefore(part: nat -> nat, init: seq<nat>, last: nat, p: nat)
    requires Increasing(Project(part, FirstOccurrences(init + [last]), p))
    ensures Increasing(Project(part, FirstOccurrences(init), p))
    ensures last !in init && part(last) == p ==> Increasing(Project(part, FirstOccurrences(init), p) + [last])
  {
    FirstOccurrencesSnoc(init, last);
    ProjectSnoc(part, FirstOccurrences(init), last, p);
    PrefixIncreases(Project(part, FirstOccurrences(init), p), Project(part, FirstOccurrences(init + [last]), p));
  }

  /** The rows that land increase within each partition, as the rows read do. */
  lemma {:induction false} LandedIncrease(rows: Rows, part: nat -> nat, ids: seq<nat>, ds: seq<Delivery>, p: nat)
    requires Carries(rows, ids, ds) && FreshIds(rows) && AllRecord(ds)
    requires Increasing(Project(part, FirstOccurrences(ids), p))
    ensures Increasing(Project(part, LandedRows(ids, ds), p))
    decreases |ds|
  {
    if ds != [] {
      CarriesInit(rows, ids, ds);
      var init, last := ids[..|ids| - 1], ids[|ids| - 1];
      var before := LandedRows(init, ds[..|ds| - 1]);
      SeenBefore(part, init, last, p);
      LandedIncrease(rows, part, init, ds[..|ds| - 1], p);
      LandsOnFirstRead(rows, ids, ds);
      ProjectSnoc(part, before, last, p);
      if LandedRows(ids, ds) != before && part(last) == p {
        NewLandsLast(rows, part, init, ds[..|ds| - 1], last, p);
      }
    }
  }

  lemma NewLandsLast(rows: Rows, part: nat -> nat, init: seq<nat>, ds: seq<Delivery>, last: nat, p: nat)
    requires Carries(rows, init, ds) && Increasing(Project(part, LandedRows(init, ds), p))
    requires Increasing(Project(part, FirstOccurrences(init), p) + [last])
    ensures Increasing(Project(part, LandedRows(init, ds), p) + [last])
  {
    var seen, landed := Project(part, FirstOccurrences(init), p), Project(part, LandedRows(init, ds), p);
    LandedRowsFold(rows, init, ds);
    ProjectMembers(part, LandedRows(init, ds), p);
    ProjectMembers(part, FirstOccurrences(init), p);
    IncreasingLast(seen + [last]);
    assert (seen + [last])[..|seen|] == seen;
    WithinMembers(seen, last);
    WithinMembers(landed, last);
    assert forall i :: i in landed ==> i in seen;
    IncreasingSnoc(landed, last);
  }

  /**
   End to end over a partitioned topic. The relay's runs, the splitting of its log by key, rewinds in any partition, any
   interleaving of the partitions, and consumer faults in which every mark answers or records: the read model is the fold,
   in outbox order, of exactly the rows read whose recording delivery landed. Without consumer faults these are all the
   rows read; once everything sent has been read, all the rows sent.
   */
  lemma EndToEndByPartition(acts: seq<Relay.Act<Message>>, size: nat, part: nat -> nat, ids: seq<nat>, ds: seq<Delivery>)
    returns (k: nat, landed: seq<nat>)
    requires var (rows, log) := Relay.Run(acts, size);
             FreshIds(rows) && RowsKeyed(rows, part) && ReadsTopic(part, log, ids) && Carries(rows, ids, ds)
    requires AllRecord(ds)
    ensures var (rows, log) := Relay.Run(acts, size);
            && Relay.SentUpTo(log, k) && k <= |rows|
            && Within(landed, |rows|) && Increasing(landed)
            && DeliverAll(ds).tables == PgOf(EventsAt(rows, landed))
            && (forall i :: i in landed ==> i in log)
            && (forall i :: 0 <= i < |rows| && EventOf(rows[i].message).Some? ==>
                  (i in landed <==> Landed(ds, rows[i].message.id)))
    ensures var (rows, log) := Relay.Run(acts, size);
            Faultless(ds) ==>
              && DeliverAll(ds).tables == PgOf(EventsAt(rows, Among(|rows|, ids)))
              && ((forall i :: i in log ==> i in ids) ==> DeliverAll(ds).tables == PgOf(EventsAt(rows, UpTo(k))))
  {
    var (rows, log) := Relay.Run(acts, size);
    var p0, k0 := Relay.DrainsInOrder(acts, size);
    k := k0;
    var raw := LandedRows(ids, ds);
    landed := Among(|rows|, raw);
    LandedRowsFold(rows, ids, ds);
    AtMostOnce(ds);
    AmongIncreases(|rows|, raw);
    forall p ensures Increasing(Project(part, raw, p)) && Increasing(Project(part, FirstOccurrences(ids), p)) {
      PartitionsIncrease(part, log, k, ids, p);
      LandedIncrease(rows, part, ids, ds, p);
    }
    OutboxOrderWillDo(rows, part, raw);
    forall i | i in landed ensures i in log {
      ReadIsSent(part, log, ids, i);
    }
    forall i | 0 <= i < |rows| && EventOf(rows[i].message).Some? ensures i in landed <==> Landed(ds, rows[i].message.id) {
      LandedRowsExactlyWhen(rows, ids, ds, i);
    }
    if Faultless(ds) {
      AllReadCount(rows, part, ids, ds);
      if forall i :: i in log ==> i in ids {
        AllSentRead(part, log, k, ids, |rows|);
      }
    }
  }

  lemma AllReadCount(rows: Rows, part: nat -> nat, ids: seq<nat>, ds: seq<Delivery>)
    requires FreshIds(rows) && RowsKeyed(rows, part) && Carries(rows, ids, ds) && Faultless(ds)
    requires forall p :: Increasing(Project(part, FirstOccurrences(ids), p))
    ensures Within(Among(|rows|, ids), |rows|)
    ensures DeliverAll(ds).tables == PgOf(EventsAt(rows, Among(|rows|, ids)))
  {
    AtMostOnce(ds);
    FaultlessLandsAll(rows, ids, ds);
    OutboxOrderWillDo(rows, part, FirstOccurrences(ids));
    AmongIncreases(|rows|, ids);
    AmongIncreases(|rows|, FirstOccurrences(ids));
    SameIncreasing(Among(|rows|, ids), Among(|rows|, FirstOccurrences(ids)));
  }

  lemma AllSentRead(part: nat -> nat, log: seq<nat>, k: nat, ids: seq<nat>, n: nat)
    requires Relay.SentUpTo(log, k) && k <= n && ReadsTopic(part, log, ids) && forall i :: i in log ==> i in ids
    ensures Among(n, ids) == UpTo(k)
  {
    AmongIncreases(n, ids);
    forall i ensures i in Among(n, ids) <==> i in UpTo(k) {
      UpToMembers(k, i);
      assert i in FirstOccurrences(log) <==> i in log;
      if i in ids {
        ReadIsSent(part, log, ids, i);
      }
    }
    SameIncreasing(Among(n, ids), UpTo(k));
  }
}

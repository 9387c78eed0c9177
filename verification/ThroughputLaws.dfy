/** What the throughput read model computes from a stream of events, and when its two stores agree. */
module ThroughputLaws {
  import opened Prelude
  import opened Throughput
  import opened Projection

  // ---- Streams ----

  function MemOf(es: seq<Event>): Mem
    decreases |es|
  {
    if es == [] then EMPTY_MEM else ApplyMem(MemOf(es[..|es| - 1]), es[|es| - 1])
  }

  function PgOf(es: seq<Event>): Pg
    decreases |es|
  {
    if es == [] then EMPTY_PG else ApplyPg(PgOf(es[..|es| - 1]), es[|es| - 1])
  }

  function Ids(es: seq<Event>): set<string> {
    set i | 0 <= i < |es| :: es[i].id
  }

  /** The events that take effect: the first of each id. */
  function Applied(es: seq<Event>): seq<Event>
    decreases |es|
  {
    if es == [] then []
    else
      var init, last := es[..|es| - 1], es[|es| - 1];
      if last.id in Ids(init) then Applied(init) else Applied(init) + [last]
  }

  lemma Snoc(es: seq<Event>, e: Event)
    ensures MemOf(es + [e]) == ApplyMem(MemOf(es), e)
    ensures PgOf(es + [e]) == ApplyPg(PgOf(es), e)
    ensures Ids(es + [e]) == Ids(es) + {e.id}
    ensures Applied(es + [e]) == if e.id in Ids(es) then Applied(es) else Applied(es) + [e]
  {
    assert (es + [e])[..|es|] == es;
    IdsSnoc(es + [e]);
  }

  lemma IdsSnoc(es: seq<Event>)
    requires es != []
    ensures Ids(es) == Ids(es[..|es| - 1]) + {es[|es| - 1].id}
  {
  }

  lemma {:induction false} Seen(es: seq<Event>)
    ensures MemOf(es).seen == Ids(es) == PgOf(es).processed.Keys
    decreases |es|
  {
    if es != [] {
      Seen(es[..|es| - 1]);
      IdsSnoc(es);
    }
  }

  /** A redelivered event changes nothing in either store: both see only the first of each id. */
  lemma {:induction false} RedeliveriesVanish(es: seq<Event>)
    ensures MemOf(Applied(es)) == MemOf(es) && PgOf(Applied(es)) == PgOf(es)
    ensures Ids(Applied(es)) == Ids(es)
    decreases |es|
  {
    if es != [] {
      var init, last := es[..|es| - 1], es[|es| - 1];
      RedeliveriesVanish(init);
      Seen(init);
      IdsSnoc(es);
      if last.id !in Ids(init) {
        var a := Applied(es);
        assert a[..|a| - 1] == Applied(init);
        IdsSnoc(a);
      }
    }
  }

  // ---- What the counters count ----

  /** The ids of the applied events of one kind that belong to one row. */
  function IdsFor(es: seq<Event>, k: RowKey, p: Kind -> bool): set<string> {
    set i | 0 <= i < |es| && KeyOf(es[i]) == k && p(es[i].kind) :: es[i].id
  }

  lemma IdsForSnoc(es: seq<Event>, k: RowKey, p: Kind -> bool)
    requires es != []
    ensures IdsFor(es, k, p) == IdsFor(es[..|es| - 1], k, p)
                                + if KeyOf(es[|es| - 1]) == k && p(es[|es| - 1].kind) then {es[|es| - 1].id} else {}
    ensures IdsFor(es, k, p) <= Ids(es)
  {
  }

  lemma IdsForFresh(es: seq<Event>, k: RowKey, p: Kind -> bool)
    requires es != [] && es[|es| - 1].id !in Ids(es[..|es| - 1])
    ensures |IdsFor(es, k, p)| == |IdsFor(es[..|es| - 1], k, p)| + if KeyOf(es[|es| - 1]) == k && p(es[|es| - 1].kind) then 1 else 0
  {
    var init := es[..|es| - 1];
    IdsForSnoc(es, k, p);
    if init != [] {
      IdsForSnoc(init, k, p);
    }
  }

  const COMPLETES := (k: Kind) => k.TaskCompleted?
  const EXPIRES := (k: Kind) => k.LeaseExpired?
  const DIVERTS := (k: Kind) => k.WeightDiscrepancy?
  const MANIFESTS := (k: Kind) => k.PackageManifested?
  const ON_TIME := (k: Kind) => k.PackageManifested? && k.onTime
  const LATE := (k: Kind) => k.PackageManifested? && !k.onTime

  ghost predicate Counts(a: Acc, es: seq<Event>, k: RowKey) {
    && a.completions == |IdsFor(es, k, COMPLETES)|
    && a.leaseExpiries == |IdsFor(es, k, EXPIRES)|
    && a.weighCheckDiverts == |IdsFor(es, k, DIVERTS)|
    && a.manifested == |IdsFor(es, k, MANIFESTS)|
    && a.onTime == |IdsFor(es, k, ON_TIME)|
    && a.late == |IdsFor(es, k, LATE)|
  }

  /** Each event id once. */
  ghost predicate DistinctIds(es: seq<Event>) {
    forall i, j :: 0 <= i < j < |es| ==> es[i].id != es[j].id
  }

  lemma {:induction false} AppliedDistinct(es: seq<Event>)
    ensures DistinctIds(Applied(es))
    decreases |es|
  {
    if es != [] {
      AppliedDistinct(es[..|es| - 1]);
      RedeliveriesVanish(es[..|es| - 1]);
    }
  }

  /** One fresh event moves exactly the counters of its own row and kind. */
  lemma CountsStep(a: Acc, es: seq<Event>, k: RowKey, claimed: Option<Instant>)
    requires es != [] && es[|es| - 1].id !in Ids(es[..|es| - 1]) && Counts(a, es[..|es| - 1], k)
    ensures var last := es[|es| - 1];
            Counts(if k == KeyOf(last) && !last.kind.TaskClaimed? then a.Plus(Delta(last, claimed)) else a, es, k)
  {
    IdsForFresh(es, k, COMPLETES);
    IdsForFresh(es, k, EXPIRES);
    IdsForFresh(es, k, DIVERTS);
    IdsForFresh(es, k, MANIFESTS);
    IdsForFresh(es, k, ON_TIME);
    IdsForFresh(es, k, LATE);
  }

  lemma {:induction false} CountsOfDistinct(es: seq<Event>, k: RowKey)
    requires DistinctIds(es)
    ensures Counts(RowOf(MemOf(es).rows, k), es, k)
    decreases |es|
  {
    if es != [] {
      var init, last := es[..|es| - 1], es[|es| - 1];
      CountsOfDistinct(init, k);
      Seen(init);
      assert last.id !in Ids(init);
      var claimed := PendingIn(MemOf(init).claims, last);
      AddedRow(MemOf(init).rows, last, claimed, k);
      CountsStep(RowOf(MemOf(init).rows, k), es, k, claimed);
    }
  }

  /**
   Every counter of every row is the number of distinct event ids of its kind that first arrived for that process
   path, station and hour, however often anything was redelivered; and on time plus late is manifested.
   */
  lemma CountersCountIds(es: seq<Event>, k: RowKey)
    ensures Counts(RowOf(MemOf(es).rows, k), Applied(es), k)
    ensures RowOf(MemOf(es).rows, k).onTime + RowOf(MemOf(es).rows, k).late == RowOf(MemOf(es).rows, k).manifested
  {
    AppliedDistinct(es);
    RedeliveriesVanish(es);
    CountsOfDistinct(Applied(es), k);
    OnTimePlusLate(es, k);
  }

  /** The Postgres projection counts the same. */
  lemma {:induction false} PgCountsOfDistinct(es: seq<Event>, k: RowKey)
    requires DistinctIds(es)
    ensures Counts(RowOf(PgOf(es).rollup, k), es, k)
    decreases |es|
  {
    if es != [] {
      var init, last := es[..|es| - 1], es[|es| - 1];
      PgCountsOfDistinct(init, k);
      Seen(init);
      assert last.id !in Ids(init);
      var claimed := PendingInPg(PgOf(init).pending, last);
      AddedRow(PgOf(init).rollup, last, claimed, k);
      CountsStep(RowOf(PgOf(init).rollup, k), es, k, claimed);
    }
  }

  // ---- Rows are hours ----

  /** Two instants share a row's hour exactly when they lie in the same hour since the zero time. */
  lemma SameHourExactlyWhen(a: Instant, b: Instant)
    ensures HourBucket(a) == HourBucket(b) <==> a / 3_600_000_000_000 == b / 3_600_000_000_000
  {
  }

  /** An instant is counted under an hour exactly when it lies in it. */
  lemma InHourExactlyWhen(at: Instant, h: Instant)
    requires h % 3_600_000_000_000 == 0
    ensures HourBucket(at) == h <==> h <= at < h + 3_600_000_000_000
  {
  }

  /** The ids of the events of some kinds for a process path and station within the hour from h on. */
  function IdsWithin(es: seq<Event>, taskType: string, station: string, h: Instant, p: Kind -> bool): set<string> {
    set i | 0 <= i < |es| && es[i].taskType == taskType && es[i].station == station
            && h <= es[i].at < h + 3_600_000_000_000 && p(es[i].kind) :: es[i].id
  }

  lemma IdsOfHour(es: seq<Event>, taskType: string, station: string, h: Instant, p: Kind -> bool)
    requires h % 3_600_000_000_000 == 0
    ensures IdsFor(es, RowKey(taskType, station, h), p) == IdsWithin(es, taskType, station, h, p)
  {
    forall i | 0 <= i < |es|
      ensures KeyOf(es[i]) == RowKey(taskType, station, h)
              <==> es[i].taskType == taskType && es[i].station == station && h <= es[i].at < h + 3_600_000_000_000
    {
      InHourExactlyWhen(es[i].at, h);
    }
  }

  /** The counters tell how many distinct events of each kind there were within the hour. */
  predicate CountsHour(a: Acc, es: seq<Event>, taskType: string, station: string, h: Instant) {
    && a.completions == |IdsWithin(es, taskType, station, h, (k: Kind) => k.TaskCompleted?)|
    && a.leaseExpiries == |IdsWithin(es, taskType, station, h, (k: Kind) => k.LeaseExpired?)|
    && a.weighCheckDiverts == |IdsWithin(es, taskType, station, h, (k: Kind) => k.WeightDiscrepancy?)|
    && a.manifested == |IdsWithin(es, taskType, station, h, (k: Kind) => k.PackageManifested?)|
    && a.onTime == |IdsWithin(es, taskType, station, h, (k: Kind) => k.PackageManifested? && k.onTime)|
    && a.late == |IdsWithin(es, taskType, station, h, (k: Kind) => k.PackageManifested? && !k.onTime)|
  }

  lemma CountsAreOfHour(a: Acc, es: seq<Event>, taskType: string, station: string, h: Instant)
    requires h % 3_600_000_000_000 == 0 && Counts(a, es, RowKey(taskType, station, h))
    ensures CountsHour(a, es, taskType, station, h)
  {
    IdsOfHour(es, taskType, station, h, COMPLETES);
    IdsOfHour(es, taskType, station, h, EXPIRES);
    IdsOfHour(es, taskType, station, h, DIVERTS);
    IdsOfHour(es, taskType, station, h, MANIFESTS);
    IdsOfHour(es, taskType, station, h, ON_TIME);
    IdsOfHour(es, taskType, station, h, LATE);
    SameIds(es, taskType, station, h, COMPLETES, (k: Kind) => k.TaskCompleted?);
    SameIds(es, taskType, station, h, EXPIRES, (k: Kind) => k.LeaseExpired?);
    SameIds(es, taskType, station, h, DIVERTS, (k: Kind) => k.WeightDiscrepancy?);
    SameIds(es, taskType, station, h, MANIFESTS, (k: Kind) => k.PackageManifested?);
    SameIds(es, taskType, station, h, ON_TIME, (k: Kind) => k.PackageManifested? && k.onTime);
    SameIds(es, taskType, station, h, LATE, (k: Kind) => k.PackageManifested? && !k.onTime);
  }

  lemma SameIds(es: seq<Event>, taskType: string, station: string, h: Instant, p: Kind -> bool, q: Kind -> bool)
    requires forall k :: p(k) == q(k)
    ensures IdsWithin(es, taskType, station, h, p) == IdsWithin(es, taskType, station, h, q)
  {
  }

  ghost predicate HoursAligned(rows: Rollup) {
    forall k :: k in rows ==> k.hour % 3_600_000_000_000 == 0
  }

  lemma {:induction false} RowsAreHours(es: seq<Event>)
    ensures HoursAligned(MemOf(es).rows) && HoursAligned(PgOf(es).rollup)
    decreases |es|
  {
    if es != [] {
      RowsAreHours(es[..|es| - 1]);
    }
  }

  /**
   A row per hour, in both stores: the query for one process path, one station and one hour finds at most one row, and that
   row, or zeroes if there is none, counts exactly the distinct events there were for them within that hour.
   */
  lemma OneRowPerHour(es: seq<Event>, taskType: string, station: string, h: Instant)
    requires h % 3_600_000_000_000 == 0 && taskType != "" && station != ""
    ensures var q, k := Query(h, h + 3_600_000_000_000, taskType, station), RowKey(taskType, station, h);
            && Selected(MemOf(es).rows, q) == (if k in MemOf(es).rows then {k} else {})
            && Selected(PgOf(es).rollup, q) == (if k in PgOf(es).rollup then {k} else {})
            && CountsHour(RowOf(MemOf(es).rows, k), Applied(es), taskType, station, h)
            && CountsHour(RowOf(PgOf(es).rollup, k), Applied(es), taskType, station, h)
  {
    var k := RowKey(taskType, station, h);
    RowsAreHours(es);
    AppliedDistinct(es);
    RedeliveriesVanish(es);
    CountsOfDistinct(Applied(es), k);
    PgCountsOfDistinct(Applied(es), k);
    CountsAreOfHour(RowOf(MemOf(es).rows, k), Applied(es), taskType, station, h);
    CountsAreOfHour(RowOf(PgOf(es).rollup, k), Applied(es), taskType, station, h);
    OnlyHour(MemOf(es).rows, taskType, station, h);
    OnlyHour(PgOf(es).rollup, taskType, station, h);
  }

  lemma OnlyHour(rows: Rollup, taskType: string, station: string, h: Instant)
    requires HoursAligned(rows) && h % 3_600_000_000_000 == 0 && taskType != "" && station != ""
    ensures Selected(rows, Query(h, h + 3_600_000_000_000, taskType, station))
            == if RowKey(taskType, station, h) in rows then {RowKey(taskType, station, h)} else {}
  {
  }

  lemma {:induction false} OnTimePlusLate(es: seq<Event>, k: RowKey)
    ensures RowOf(MemOf(es).rows, k).onTime + RowOf(MemOf(es).rows, k).late == RowOf(MemOf(es).rows, k).manifested
    decreases |es|
  {
    if es != [] {
      OnTimePlusLate(es[..|es| - 1], k);
    }
  }

  /** Completions summed over all rows. */
  ghost function TotalCompletions(rows: Rollup): nat
    decreases |rows|
  {
    if rows == map[] then 0
    else
      var k :| k in rows;
      rows[k].completions + TotalCompletions(rows - {k})
  }

  lemma {:induction false} TotalWithout(rows: Rollup, k: RowKey)
    requires k in rows
    ensures TotalCompletions(rows) == rows[k].completions + TotalCompletions(rows - {k})
    decreases |rows|
  {
    var j :| j in rows && TotalCompletions(rows) == rows[j].completions + TotalCompletions(rows - {j});
    if j != k {
      TotalWithout(rows - {j}, k);
      TotalWithout(rows - {k}, j);
      assert rows - {j} - {k} == rows - {k} - {j};
    }
  }

  lemma TotalUpdate(rows: Rollup, k: RowKey, a: Acc)
    ensures TotalCompletions(rows[k := a]) + RowOf(rows, k).completions == TotalCompletions(rows) + a.completions
  {
    TotalWithout(rows[k := a], k);
    assert rows[k := a] - {k} == rows - {k};
    if k in rows {
      TotalWithout(rows, k);
    } else {
      assert rows - {k} == rows;
    }
  }

  function CompletionIds(es: seq<Event>): set<string> {
    set i | 0 <= i < |es| && es[i].kind.TaskCompleted? :: es[i].id
  }

  /** Conservation: the completions over all rows are the distinct completion ids that took effect. */
  lemma TotalIsConserved(es: seq<Event>)
    ensures TotalCompletions(MemOf(es).rows) == |CompletionIds(Applied(es))|
  {
    AppliedDistinct(es);
    RedeliveriesVanish(es);
    TotalOfDistinct(Applied(es));
  }

  lemma CompletionIdsSnoc(es: seq<Event>)
    requires es != [] && es[|es| - 1].id !in Ids(es[..|es| - 1])
    ensures |CompletionIds(es)| == |CompletionIds(es[..|es| - 1])| + if es[|es| - 1].kind.TaskCompleted? then 1 else 0
  {
    var init, last := es[..|es| - 1], es[|es| - 1];
    assert forall i :: 0 <= i < |init| ==> init[i] == es[i];
    assert last.id !in CompletionIds(init);
    forall id | id in CompletionIds(init) ensures id in CompletionIds(es) {
      var i :| 0 <= i < |init| && init[i].kind.TaskCompleted? && init[i].id == id;
      assert es[i].id == id && es[i].kind.TaskCompleted?;
    }
    assert CompletionIds(es) == CompletionIds(init) + if last.kind.TaskCompleted? then {last.id} else {};
  }

  lemma {:induction false} TotalOfDistinct(es: seq<Event>)
    requires DistinctIds(es)
    ensures TotalCompletions(MemOf(es).rows) == |CompletionIds(es)|
    decreases |es|
  {
    if es != [] {
      var init, last := es[..|es| - 1], es[|es| - 1];
      TotalOfDistinct(init);
      Seen(init);
      assert last.id !in Ids(init);
      CompletionIdsSnoc(es);
      var claimed := PendingIn(MemOf(init).claims, last);
      TotalUpdate(MemOf(init).rows, KeyOf(last), RowOf(MemOf(init).rows, KeyOf(last)).Plus(Delta(last, claimed)));
    }
  }

  // ---- What the average averages ----

  /** When the latest claim with this joined key was made, if any was. */
  function LatestClaim(es: seq<Event>, key: string): Option<Instant>
    decreases |es|
  {
    if es == [] then None
    else
      var last := es[|es| - 1];
      if last.kind.TaskClaimed? && ClaimKey(last.taskType, last.station, last.kind.task) == key then Some(last.at)
      else LatestClaim(es[..|es| - 1], key)
  }

  /** The claim a completion at the end of a stream is measured from. */
  function MeasuredFrom(init: seq<Event>, e: Event): Option<Instant> {
    if e.kind.TaskCompleted? then LatestClaim(init, ClaimKey(e.taskType, e.station, e.kind.task)) else None
  }

  /** The completions of a row that had a claim before them. */
  function ClaimedCompletions(es: seq<Event>, k: RowKey): set<string>
    decreases |es|
  {
    if es == [] then {}
    else
      var init, last := es[..|es| - 1], es[|es| - 1];
      if KeyOf(last) == k && MeasuredFrom(init, last).Some? then ClaimedCompletions(init, k) + {last.id}
      else ClaimedCompletions(init, k)
  }

  /** Their distances from the latest claim before each, added up. */
  function ClaimToComplete(es: seq<Event>, k: RowKey): int
    decreases |es|
  {
    if es == [] then 0
    else
      var init, last := es[..|es| - 1], es[|es| - 1];
      if KeyOf(last) == k && MeasuredFrom(init, last).Some? then ClaimToComplete(init, k) + (last.at - MeasuredFrom(init, last).value)
      else ClaimToComplete(init, k)
  }

  lemma {:induction false} ClaimedCompletionsAreIds(es: seq<Event>, k: RowKey)
    ensures ClaimedCompletions(es, k) <= Ids(es)
    decreases |es|
  {
    if es != [] {
      ClaimedCompletionsAreIds(es[..|es| - 1], k);
      IdsSnoc(es);
    }
  }

  /** The claims the memory store remembers are the latest ones. */
  lemma {:induction false} RemembersLatest(es: seq<Event>, key: string)
    requires DistinctIds(es)
    ensures LatestClaim(es, key) == if key in MemOf(es).claims then Some(MemOf(es).claims[key]) else None
    decreases |es|
  {
    if es != [] {
      RemembersLatest(es[..|es| - 1], key);
      FreshLast(es);
    }
  }

  lemma FreshLast(es: seq<Event>)
    requires DistinctIds(es) && es != []
    ensures es[|es| - 1].id !in Ids(es[..|es| - 1]) && es[|es| - 1].id !in MemOf(es[..|es| - 1]).seen
    ensures DistinctIds(es[..|es| - 1])
  {
    Seen(es[..|es| - 1]);
  }

  /** The two totals behind a row's average. */
  predicate Measures(a: Acc, es: seq<Event>, k: RowKey) {
    a.withClaim == |ClaimedCompletions(es, k)| && a.claimTime == ClaimToComplete(es, k)
  }

  lemma {:induction false} MeasuresOfDistinct(es: seq<Event>, k: RowKey)
    requires DistinctIds(es)
    ensures Measures(RowOf(MemOf(es).rows, k), es, k)
    decreases |es|
  {
    if es != [] {
      var init, last := es[..|es| - 1], es[|es| - 1];
      FreshLast(es);
      MeasuresOfDistinct(init, k);
      var claimed := PendingIn(MemOf(init).claims, last);
      if last.kind.TaskCompleted? {
        RemembersLatest(init, ClaimKey(last.taskType, last.station, last.kind.task));
      }
      assert claimed == MeasuredFrom(init, last);
      AddedRow(MemOf(init).rows, last, claimed, k);
      ClaimedCompletionsAreIds(init, k);
    }
  }

  lemma MeasuresOf(es: seq<Event>, k: RowKey)
    ensures Measures(RowOf(MemOf(es).rows, k), Applied(es), k)
  {
    AppliedDistinct(es);
    RedeliveriesVanish(es);
    MeasuresOfDistinct(Applied(es), k);
  }

  /** The average of n durations in nanoseconds, in seconds; zero when there is none. */
  predicate IsAverage(average: real, n: nat, total: int) {
    if n == 0 then average == 0.0 else average * n as real == total as real / 1_000_000_000.0
  }

  lemma ReportAverages(k: RowKey, a: Acc)
    ensures IsAverage(ReportOf(k, a).avgClaimToComplete, a.withClaim, a.claimTime)
  {
    ReportShowsTotals(k, a);
  }

  /**
   What a row's average averages, whatever was redelivered: over the completions of the row that had an earlier claim of
   the same joined key, the time since the latest such claim.
   */
  lemma AveragesClaimToComplete(es: seq<Event>, k: RowKey)
    ensures IsAverage(ReportOf(k, RowOf(MemOf(es).rows, k)).avgClaimToComplete,
                      |ClaimedCompletions(Applied(es), k)|, ClaimToComplete(Applied(es), k))
  {
    MeasuresOf(es, k);
    ReportAverages(k, RowOf(MemOf(es).rows, k));
  }

  // ---- When the two stores agree ----

  /** Where a claim stands: never made, made and open, or already used by a completion. */
  datatype ClaimState = NoClaim | Open | Used

  function ClaimStateOf(es: seq<Event>, c: ClaimId): ClaimState
    decreases |es|
  {
    if es == [] then NoClaim
    else
      var init, last := es[..|es| - 1], es[|es| - 1];
      var before := ClaimStateOf(init, c);
      if last.id in Ids(init) then before
      else if last.kind.TaskClaimed? && ClaimIdOf(last) == c then Open
      else if last.kind.TaskCompleted? && ClaimIdOf(last) == c && before == Open then Used
      else before
  }

  /** No completion falls on a claim that an earlier completion already used. */
  predicate NoReuse(es: seq<Event>)
    decreases |es|
  {
    es == [] ||
    (var init, last := es[..|es| - 1], es[|es| - 1];
     NoReuse(init) && !Reuses(init, last))
  }

  predicate Reuses(init: seq<Event>, last: Event) {
    last.id !in Ids(init) && last.kind.TaskCompleted? && ClaimStateOf(init, ClaimIdOf(last)) == Used
  }

  function JoinedKey(c: ClaimId): string {
    ClaimKey(c.taskType, c.station, c.task)
  }

  predicate HasClaimId(e: Event) {
    e.kind.TaskClaimed? || e.kind.TaskCompleted?
  }

  /** No claim of the stream other than c itself has c's joined key. */
  predicate ApartFrom(es: seq<Event>, c: ClaimId) {
    forall i :: 0 <= i < |es| && HasClaimId(es[i]) && JoinedKey(ClaimIdOf(es[i])) == JoinedKey(c) ==> ClaimIdOf(es[i]) == c
  }

  /** No two different claims of the stream share a joined key. */
  predicate KeysApart(es: seq<Event>) {
    forall i :: 0 <= i < |es| && HasClaimId(es[i]) ==> ApartFrom(es, ClaimIdOf(es[i]))
  }

  lemma KeysApartInit(es: seq<Event>)
    requires es != [] && KeysApart(es)
    ensures KeysApart(es[..|es| - 1])
    ensures HasClaimId(es[|es| - 1]) ==> ApartFrom(es[..|es| - 1], ClaimIdOf(es[|es| - 1]))
  {
    var init := es[..|es| - 1];
    assert forall i :: 0 <= i < |init| ==> init[i] == es[i];
  }

  lemma BarAt(a: string, x: string, b: string, y: string)
    requires a + "|" + x == b + "|" + y
    ensures |a| < |b| ==> '|' in b
  {
    if |a| < |b| {
      assert (a + "|" + x)[|a|] == '|' && (b + "|" + y)[|a|] == b[|a|];
    }
  }

  lemma BarSplits(a: string, x: string, b: string, y: string)
    requires '|' !in a && '|' !in b && a + "|" + x == b + "|" + y
    ensures a == b && x == y
  {
    var l, r := a + "|" + x, b + "|" + y;
    BarAt(a, x, b, y);
    BarAt(b, y, a, x);
    assert a == l[..|a|] == r[..|b|] == b;
    assert x == l[|a| + 1..] == r[|b| + 1..] == y;
  }

  /** What every joined key of a process path and station begins with. */
  function KeyStem(taskType: string, station: string): string {
    taskType + "|" + station + "|"
  }

  /** Some tasks of the two make one joined key, exactly when one stem begins with the other. */
  lemma StemsCollideExactlyWhen(t: string, s: string, t': string, s': string)
    ensures (exists x, y :: ClaimKey(t, s, x) == ClaimKey(t', s', y))
            <==> KeyStem(t, s) <= KeyStem(t', s') || KeyStem(t', s') <= KeyStem(t, s)
  {
    var k, k' := KeyStem(t, s), KeyStem(t', s');
    if x, y :| ClaimKey(t, s, x) == ClaimKey(t', s', y) {
      var key := ClaimKey(t, s, x);
      assert k == key[..|k|];
      assert k' == key[..|k'|];
      if |k| <= |k'| {
        assert k == k'[..|k|];
      } else {
        assert k' == k[..|k'|];
      }
    }
    if k <= k' {
      assert ClaimKey(t, s, k'[|k|..]) == k + k'[|k|..] == k' == k' + "" == ClaimKey(t', s', "");
    }
    if k' <= k {
      assert ClaimKey(t', s', k[|k'|..]) == k' + k[|k'|..] == k == k + "" == ClaimKey(t, s, "");
    }
  }

  /** For one process path and station the joined key tells the tasks apart, whatever the names. */
  lemma SameStemSameTask(t: string, s: string, x: string, y: string)
    ensures ClaimKey(t, s, x) == ClaimKey(t, s, y) <==> x == y
  {
    var k := KeyStem(t, s);
    assert ClaimKey(t, s, x) == k + x && ClaimKey(t, s, y) == k + y;
    assert x == (k + x)[|k|..] && y == (k + y)[|k|..];
  }

  /** In particular names without the separator keep all claims apart. */
  lemma ClaimKeyInjective(c: ClaimId, d: ClaimId)
    requires '|' !in c.taskType && '|' !in c.station && '|' !in d.taskType && '|' !in d.station
    ensures JoinedKey(c) == JoinedKey(d) <==> c == d
  {
    if JoinedKey(c) == JoinedKey(d) {
      assert c.taskType + "|" + (c.station + "|" + c.task) == JoinedKey(c);
      assert d.taskType + "|" + (d.station + "|" + d.task) == JoinedKey(d);
      BarSplits(c.taskType, c.station + "|" + c.task, d.taskType, d.station + "|" + d.task);
      BarSplits(c.station, c.task, d.station, d.task);
    }
  }

  /** How the two stores' pending claims correspond: the memory store also keeps the used ones. */
  predicate PendingAgree(m: Mem, p: Pg, c: ClaimId, state: ClaimState) {
    var key := JoinedKey(c);
    && (key in m.claims <==> state != NoClaim)
    && (c in p.pending <==> state == Open)
    && (state == Open ==> m.claims[key] == p.pending[c])
  }

  lemma {:induction false} PendingClaims(es: seq<Event>, c: ClaimId)
    requires ApartFrom(es, c)
    ensures PendingAgree(MemOf(es), PgOf(es), c, ClaimStateOf(es, c))
    decreases |es|
  {
    if es != [] {
      var init, last := es[..|es| - 1], es[|es| - 1];
      assert forall i :: 0 <= i < |init| ==> init[i] == es[i];
      PendingClaims(init, c);
      Seen(init);
    }
  }

  /** Row by row, the memory store has counted at least as many completions with a claim. */
  ghost predicate AtLeast(m: Rollup, p: Rollup) {
    forall k :: RowOf(p, k).withClaim <= RowOf(m, k).withClaim
  }

  ghost predicate Ahead(m: Rollup, p: Rollup) {
    exists k :: RowOf(p, k).withClaim < RowOf(m, k).withClaim
  }

  /** An event changes its own row and no other. */
  lemma AddedRow(rows: Rollup, e: Event, claimed: Option<Instant>, k: RowKey)
    ensures RowOf(Added(rows, e, claimed), k)
            == if k == KeyOf(e) && !e.kind.TaskClaimed? then RowOf(rows, k).Plus(Delta(e, claimed)) else RowOf(rows, k)
  {
  }

  /** One row bumped on both sides. */
  lemma DriftRow(m: Rollup, p: Rollup, key: RowKey, dm: Acc, dp: Acc)
    requires AtLeast(m, p) && dp.withClaim <= dm.withClaim
    ensures var m', p' := m[key := RowOf(m, key).Plus(dm)], p[key := RowOf(p, key).Plus(dp)];
            && AtLeast(m', p')
            && (Ahead(m, p) || dp.withClaim < dm.withClaim ==> Ahead(m', p'))
  {
    var m', p' := m[key := RowOf(m, key).Plus(dm)], p[key := RowOf(p, key).Plus(dp)];
    forall k ensures RowOf(p', k).withClaim <= RowOf(m', k).withClaim {
      assert RowOf(p, k).withClaim <= RowOf(m, k).withClaim;
    }
    if Ahead(m, p) {
      var k :| RowOf(p, k).withClaim < RowOf(m, k).withClaim;
      assert RowOf(p', k).withClaim < RowOf(m', k).withClaim;
    }
    if dp.withClaim < dm.withClaim {
      assert RowOf(p, key).withClaim <= RowOf(m, key).withClaim;
      assert RowOf(p', key).withClaim < RowOf(m', key).withClaim;
    }
  }

  lemma AddedIs(rows: Rollup, e: Event, claimed: Option<Instant>)
    requires !e.kind.TaskClaimed?
    ensures Added(rows, e, claimed) == rows[KeyOf(e) := RowOf(rows, KeyOf(e)).Plus(Delta(e, claimed))]
  {
  }

  /** The same event added on both sides, with the claim each side found for it. */
  lemma DriftAdded(m: Rollup, p: Rollup, e: Event, inMem: Option<Instant>, inPg: Option<Instant>)
    requires AtLeast(m, p) && (inPg.Some? ==> inMem == inPg) && (!e.kind.TaskCompleted? ==> inMem == inPg)
    ensures var m', p' := Added(m, e, inMem), Added(p, e, inPg);
            && AtLeast(m', p')
            && (Ahead(m, p) || inMem != inPg ==> Ahead(m', p'))
            && (m == p && inMem == inPg ==> m' == p')
  {
    if !e.kind.TaskClaimed? {
      var key, dm, dp := KeyOf(e), Delta(e, inMem), Delta(e, inPg);
      WithClaimGrows(e, inMem, inPg);
      DriftRow(m, p, key, dm, dp);
      AddedIs(m, e, inMem);
      AddedIs(p, e, inPg);
    }
  }

  /** A completion counts as one with a claim exactly when a claim was found for it. */
  lemma WithClaimGrows(e: Event, inMem: Option<Instant>, inPg: Option<Instant>)
    requires (inPg.Some? ==> inMem == inPg) && (!e.kind.TaskCompleted? ==> inMem == inPg)
    ensures Delta(e, inPg).withClaim <= Delta(e, inMem).withClaim
    ensures inMem != inPg ==> Delta(e, inPg).withClaim < Delta(e, inMem).withClaim
  {
  }

  /** One fresh event: the rows drift apart exactly on a completion whose claim was already used. */
  lemma Drift(init: seq<Event>, last: Event)
    requires HasClaimId(last) ==> ApartFrom(init, ClaimIdOf(last))
    requires last.id !in Ids(init)
    requires AtLeast(MemOf(init).rows, PgOf(init).rollup)
    ensures var m, p := MemOf(init).rows, PgOf(init).rollup;
            var m', p' := ApplyMem(MemOf(init), last).rows, ApplyPg(PgOf(init), last).rollup;
            && AtLeast(m', p')
            && (Ahead(m, p) || Reuses(init, last) ==> Ahead(m', p'))
            && (m == p && !Reuses(init, last) ==> m' == p')
  {
    Seen(init);
    var inMem, inPg := PendingIn(MemOf(init).claims, last), PendingInPg(PgOf(init).pending, last);
    if last.kind.TaskCompleted? {
      PendingClaims(init, ClaimIdOf(last));
    }
    assert inMem != inPg <==> Reuses(init, last);
    DriftAdded(MemOf(init).rows, PgOf(init).rollup, last, inMem, inPg);
  }

  lemma {:induction false} Drifts(es: seq<Event>)
    requires KeysApart(es)
    ensures AtLeast(MemOf(es).rows, PgOf(es).rollup)
    ensures if NoReuse(es) then MemOf(es).rows == PgOf(es).rollup else Ahead(MemOf(es).rows, PgOf(es).rollup)
    decreases |es|
  {
    if es != [] {
      var init, last := es[..|es| - 1], es[|es| - 1];
      KeysApartInit(es);
      Drifts(init);
      Seen(init);
      if last.id !in Ids(init) {
        Drift(init, last);
      }
    }
  }

  /**
   The two stores hold the same rows, totals and averages included, if and only if no completion fell on a claim an
   earlier completion had already used. Postgres forgets such a claim; the memory store counts it again. This is for
   streams whose different claims have different joined keys; KeysMustBeApart shows that nothing less will do.
   */
  lemma StoresAgreeExactlyWhen(es: seq<Event>)
    requires KeysApart(es)
    ensures MemOf(es).rows == PgOf(es).rollup <==> NoReuse(es)
  {
    Drifts(es);
  }

  /** No two completions of one task by one station. */
  predicate CompletesAtMostOnce(es: seq<Event>) {
    forall i, j :: 0 <= i < j < |es| && es[i].kind.TaskCompleted? && es[j].kind.TaskCompleted? && es[i].id != es[j].id ==>
      ClaimIdOf(es[i]) != ClaimIdOf(es[j])
  }

  lemma {:induction false} UsedHasCompletion(es: seq<Event>, c: ClaimId)
    ensures ClaimStateOf(es, c) == Used ==>
              exists i :: 0 <= i < |es| && es[i].kind.TaskCompleted? && ClaimIdOf(es[i]) == c && es[i].id in Ids(es)
    decreases |es|
  {
    if es != [] {
      var init, last := es[..|es| - 1], es[|es| - 1];
      UsedHasCompletion(init, c);
      IdsSnoc(es);
      if ClaimStateOf(init, c) == Used {
        var i :| 0 <= i < |init| && init[i].kind.TaskCompleted? && ClaimIdOf(init[i]) == c && init[i].id in Ids(init);
        assert es[i] == init[i];
      } else {
        assert es[|es| - 1] == last;
      }
    }
  }

  /** In particular the stores agree on every stream in which each task completes at most once at a station. */
  lemma {:induction false} OnceMeansNoReuse(es: seq<Event>)
    requires CompletesAtMostOnce(es)
    ensures NoReuse(es)
    decreases |es|
  {
    if es != [] {
      var init, last := es[..|es| - 1], es[|es| - 1];
      assert forall i :: 0 <= i < |init| ==> init[i] == es[i];
      OnceMeansNoReuse(init);
      if last.kind.TaskCompleted? {
        UsedHasCompletion(init, ClaimIdOf(last));
      }
    }
  }

  /** The Postgres watermark is max(occurred_at); it is the memory store's, on every stream. */
  ghost predicate IsLatest(processed: map<string, Instant>, latest: Instant) {
    && (forall id :: id in processed ==> processed[id] <= latest)
    && (if processed == map[] then latest == 0 else exists id :: id in processed && processed[id] == latest)
  }

  lemma {:induction false} SameFreshness(es: seq<Event>)
    ensures IsLatest(PgOf(es).processed, MemOf(es).latest)
    decreases |es|
  {
    if es != [] {
      var init, last := es[..|es| - 1], es[|es| - 1];
      SameFreshness(init);
      Seen(init);
      if last.id !in Ids(init) {
        var before, after := PgOf(init).processed, PgOf(es).processed;
        assert after == before[last.id := last.at];
        if MemOf(es).latest == last.at {
          assert after[last.id] == last.at;
        } else {
          var id :| id in before && before[id] == MemOf(init).latest;
          assert after[id] == MemOf(es).latest;
        }
      }
    }
  }

  lemma TwoEvents(c: Event, d: Event)
    ensures MemOf([c, d]) == ApplyMem(ApplyMem(EMPTY_MEM, c), d) && PgOf([c, d]) == ApplyPg(ApplyPg(EMPTY_PG, c), d)
    ensures NoReuse([c, d]) <==> !Reuses([c], d)
  {
    assert [c, d][..1] == [c] && [c][..0] == [];
    assert MemOf([]) == EMPTY_MEM && PgOf([]) == EMPTY_PG;
    assert NoReuse([]);
  }

  /** All claims of the stream are among the given ones. */
  predicate Uses(es: seq<Event>, claims: set<ClaimId>) {
    forall i :: 0 <= i < |es| && HasClaimId(es[i]) ==> ClaimIdOf(es[i]) in claims
  }

  ghost predicate AgreeOn(claims: set<ClaimId>) {
    forall es :: Uses(es, claims) && NoReuse(es) ==> MemOf(es).rows == PgOf(es).rollup
  }

  predicate JoinApart(claims: set<ClaimId>) {
    forall c, d :: c in claims && d in claims && JoinedKey(c) == JoinedKey(d) ==> c == d
  }

  /**
   Distinct joined keys are exactly what is needed: the stores agree on every stream without reuse over some claims,
   if and only if no two of those claims share a joined key.
   */
  lemma KeysMustBeApart(claims: set<ClaimId>)
    ensures AgreeOn(claims) <==> JoinApart(claims)
  {
    if JoinApart(claims) {
      forall es | Uses(es, claims) && NoReuse(es) ensures MemOf(es).rows == PgOf(es).rollup {
        StoresAgreeExactlyWhen(es);
      }
    }
    if !JoinApart(claims) {
      var c, d :| c in claims && d in claims && JoinedKey(c) == JoinedKey(d) && c != d;
      var es := JoinedKeysCollide(c, d);
      assert Uses(es, claims);
    }
  }

  /** Any two claims that share a joined key: the memory store, and only it, finds the one for a completion of the other. */
  lemma JoinedKeysCollide(c: ClaimId, d: ClaimId) returns (es: seq<Event>)
    requires c != d && JoinedKey(c) == JoinedKey(d)
    ensures Uses(es, {c, d}) && NoReuse(es) && MemOf(es).rows != PgOf(es).rollup
  {
    var x := Event("x", TaskClaimed(c.task), c.taskType, c.station, 0);
    var y := Event("y", TaskCompleted(d.task), d.taskType, d.station, 0);
    LoneClaimCollides(x, y);
    es := [x, y];
  }

  /** The pending claim each store finds for a completion after that one claim. */
  lemma LoneClaim(x: Event, y: Event)
    requires x.id != y.id && x.kind.TaskClaimed? && y.kind.TaskCompleted? && ClaimIdOf(x) != ClaimIdOf(y)
    requires ClaimKey(x.taskType, x.station, x.kind.task) == ClaimKey(y.taskType, y.station, y.kind.task)
    ensures var m := ApplyMem(EMPTY_MEM, x); m.rows == map[] && y.id !in m.seen && PendingIn(m.claims, y) == Some(x.at)
    ensures var p := ApplyPg(EMPTY_PG, x); p.rollup == map[] && y.id !in p.processed && PendingInPg(p.pending, y) == None
  {
  }

  lemma LoneClaimCollides(x: Event, y: Event)
    requires x.id != y.id && x.kind.TaskClaimed? && y.kind.TaskCompleted? && ClaimIdOf(x) != ClaimIdOf(y)
    requires ClaimKey(x.taskType, x.station, x.kind.task) == ClaimKey(y.taskType, y.station, y.kind.task)
    ensures NoReuse([x, y]) && MemOf([x, y]).rows != PgOf([x, y]).rollup
  {
    TwoEvents(x, y);
    NoClaimYet([x], ClaimIdOf(y));
    LoneClaim(x, y);
    OneSidedClaim(y, x.at);
  }

  lemma OneSidedClaim(y: Event, at: Instant)
    requires y.kind.TaskCompleted?
    ensures Added(map[], y, Some(at)) != Added(map[], y, None)
  {
    DriftAdded(map[], map[], y, Some(at), None);
    AheadDiffer(Added(map[], y, Some(at)), Added(map[], y, None));
  }

  lemma AheadDiffer(m: Rollup, p: Rollup)
    requires Ahead(m, p)
    ensures m != p
  {
  }

  lemma NoClaimYet(es: seq<Event>, c: ClaimId)
    requires |es| == 1 && es[0].kind.TaskClaimed? && ClaimIdOf(es[0]) != c
    ensures ClaimStateOf(es, c) == NoClaim
  {
    assert es[..0] == [];
  }
}

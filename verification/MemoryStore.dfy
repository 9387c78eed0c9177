/**
 The in-memory throughput read model (internal/adapters/outbound/analyticsstore/memory_store.go): analytics events
 folded into one row per process path, station and UTC hour, each event id once.
 */
module Throughput {
  import opened Prelude

  // Nanoseconds since the zero time; no event is older than that.
  type Instant = nat

  /** The start of the hour (3600 s) an instant lies in. */
  function HourBucket(at: Instant): (b: Instant)
    ensures b <= at < b + 3_600_000_000_000 && b % 3_600_000_000_000 == 0
  {
    at - at % 3_600_000_000_000
  }

  function Seconds(duration: int): real {
    duration as real / 1_000_000_000.0
  }

  datatype RowKey = RowKey(taskType: string, station: string, hour: Instant)

  /**
   The running totals of one row; also the increments one event adds to it. The claim-to-complete total is kept
   exactly, in nanoseconds, where the source sums seconds in floating point.
   */
  datatype Acc = Acc(
    completions: nat, leaseExpiries: nat, weighCheckDiverts: nat, claimTime: int, withClaim: nat,
    manifested: nat, onTime: nat, late: nat)
  {
    function Plus(d: Acc): Acc {
      Acc(completions + d.completions, leaseExpiries + d.leaseExpiries, weighCheckDiverts + d.weighCheckDiverts,
          claimTime + d.claimTime, withClaim + d.withClaim,
          manifested + d.manifested, onTime + d.onTime, late + d.late)
    }
  }

  const ZERO: Acc := Acc(0, 0, 0, 0, 0, 0, 0, 0)

  datatype Kind =
    | TaskClaimed(task: string)
    | TaskCompleted(task: string)
    | LeaseExpired(task: string)
    | WeightDiscrepancy
    | PackageManifested(onTime: bool)

  datatype Event = Event(id: string, kind: Kind, taskType: string, station: string, at: Instant)

  /** The memory store keys a pending claim by one joined string. */
  function ClaimKey(taskType: string, station: string, task: string): string {
    taskType + "|" + station + "|" + task
  }

  function KeyOf(e: Event): RowKey {
    RowKey(e.taskType, e.station, HourBucket(e.at))
  }

  /** What an event adds to its row, given the pending claim found for it. */
  function Delta(e: Event, claimed: Option<Instant>): Acc {
    match e.kind
    case TaskClaimed(_) => ZERO
    case TaskCompleted(_) =>
      ZERO.(completions := 1,
            claimTime := if claimed.Some? then e.at - claimed.value else 0,
            withClaim := if claimed.Some? then 1 else 0)
    case LeaseExpired(_) => ZERO.(leaseExpiries := 1)
    case WeightDiscrepancy => ZERO.(weighCheckDiverts := 1)
    case PackageManifested(onTime) => ZERO.(manifested := 1, onTime := if onTime then 1 else 0, late := if onTime then 0 else 1)
  }

  type Rollup = map<RowKey, Acc>

  function RowOf(rows: Rollup, k: RowKey): Acc {
    if k in rows then rows[k] else ZERO
  }

  /** An event's increments added into its row; a claim touches no row. */
  function Added(rows: Rollup, e: Event, claimed: Option<Instant>): Rollup {
    if e.kind.TaskClaimed? then rows else rows[KeyOf(e) := RowOf(rows, KeyOf(e)).Plus(Delta(e, claimed))]
  }

  function Later(a: Instant, b: Instant): Instant {
    if a < b then b else a
  }

  datatype Mem = Mem(seen: set<string>, rows: Rollup, claims: map<string, Instant>, latest: Instant)

  const EMPTY_MEM: Mem := Mem({}, map[], map[], 0)

  function PendingIn(claims: map<string, Instant>, e: Event): Option<Instant> {
    if e.kind.TaskCompleted? && ClaimKey(e.taskType, e.station, e.kind.task) in claims
    then Some(claims[ClaimKey(e.taskType, e.station, e.kind.task)]) else None
  }

  /** One event applied to the memory store: nothing for a seen id, its effect otherwise. */
  function ApplyMem(m: Mem, e: Event): Mem {
    if e.id in m.seen then m
    else
      Mem(m.seen + {e.id},
          Added(m.rows, e, PendingIn(m.claims, e)),
          if e.kind.TaskClaimed? then m.claims[ClaimKey(e.taskType, e.station, e.kind.task) := e.at] else m.claims,
          Later(m.latest, e.at))
  }

  /** A new event other than a claim: its increments go into its row, and nothing else but id and watermark moves. */
  lemma NewEventCounts(m: Mem, e: Event, d: Acc)
    requires e.id !in m.seen && !e.kind.TaskClaimed? && d == Delta(e, PendingIn(m.claims, e))
    ensures ApplyMem(m, e)
            == Mem(m.seen + {e.id}, m.rows[KeyOf(e) := RowOf(m.rows, KeyOf(e)).Plus(d)], m.claims, Later(m.latest, e.at))
  {
  }

  // ---- Queries ----

  datatype Query = Query(from: Instant, to: Instant, taskType: string, station: string)

  /** Half-open in time, compared with the row's hour; an empty filter matches everything. */
  predicate Matches(q: Query, k: RowKey) {
    && q.from <= k.hour < q.to
    && (q.taskType == "" || k.taskType == q.taskType)
    && (q.station == "" || k.station == q.station)
  }

  datatype ReportRow = ReportRow(
    key: RowKey, completions: nat, avgClaimToComplete: real, leaseExpiries: nat, weighCheckDiverts: nat,
    manifested: nat, onTime: nat, late: nat)

  function ReportOf(k: RowKey, a: Acc): ReportRow {
    ReportRow(k, a.completions, if a.withClaim > 0 then Seconds(a.claimTime) / a.withClaim as real else 0.0,
              a.leaseExpiries, a.weighCheckDiverts, a.manifested, a.onTime, a.late)
  }

  /** The report row shows the totals; the average times its number of completions is the total, in seconds. */
  predicate ShowsTotals(r: ReportRow, a: Acc) {
    && r.completions == a.completions && r.leaseExpiries == a.leaseExpiries && r.weighCheckDiverts == a.weighCheckDiverts
    && r.manifested == a.manifested && r.onTime == a.onTime && r.late == a.late
    && (a.withClaim == 0 ==> r.avgClaimToComplete == 0.0)
    && (a.withClaim > 0 ==> r.avgClaimToComplete * a.withClaim as real == a.claimTime as real / 1_000_000_000.0)
  }

  lemma ReportShowsTotals(k: RowKey, a: Acc)
    ensures ReportOf(k, a).key == k && ShowsTotals(ReportOf(k, a), a)
  {
  }

  function Selected(rows: Rollup, q: Query): set<RowKey> {
    set k | k in rows && Matches(q, k)
  }

  /** Neighbouring windows split a longer one: every row lands in exactly one of them, and none is lost. */
  lemma WindowsPartition(rows: Rollup, a: Instant, b: Instant, c: Instant, taskType: string, station: string)
    requires a <= b <= c
    ensures Selected(rows, Query(a, c, taskType, station))
            == Selected(rows, Query(a, b, taskType, station)) + Selected(rows, Query(b, c, taskType, station))
    ensures Selected(rows, Query(a, b, taskType, station)) !! Selected(rows, Query(b, c, taskType, station))
  {
  }

  // ---- The store ----

  class MemoryStore {
    var seen: set<string>
    var rows: Rollup
    var claims: map<string, Instant>
    var latest: Instant

    function State(): Mem
      reads this
    {
      Mem(seen, rows, claims, latest)
    }

    constructor ()
      ensures State() == EMPTY_MEM
    {
      seen, rows, claims, latest := {}, map[], map[], 0;
    }

    /** Marks the id seen; false, and nothing done, when it already was. */
    method FirstApply(eventId: string, at: Instant) returns (first: bool)
      modifies this`seen, this`latest
      ensures first == (eventId !in old(seen))
      ensures seen == old(seen) + {eventId}
      ensures latest == if first then Later(old(latest), at) else old(latest)
      ensures claims == old(claims) && rows == old(rows)
    {
      if eventId in seen {
        return false;
      }
      seen := seen + {eventId};
      if latest < at {
        latest := at;
      }
      return true;
    }

    /** The row of a key, made on first use, with an event's increments added. */
    method Bump(k: RowKey, d: Acc)
      modifies this`rows
      ensures rows == old(rows)[k := RowOf(old(rows), k).Plus(d)]
      ensures seen == old(seen) && claims == old(claims) && latest == old(latest)
    {
      if k !in rows {
        rows := rows[k := ZERO];
      }
      rows := rows[k := rows[k].Plus(d)];
    }

    method ApplyTaskClaimed(eventId: string, task: string, taskType: string, station: string, at: Instant)
      modifies this
      ensures State() == ApplyMem(old(State()), Event(eventId, TaskClaimed(task), taskType, station, at))
    {
      var first := FirstApply(eventId, at);
      if first {
        claims := claims[ClaimKey(taskType, station, task) := at];
      } else {
        assert seen == old(seen);
      }
    }

    method ApplyTaskCompleted(eventId: string, task: string, taskType: string, station: string, at: Instant)
      modifies this
      ensures State() == ApplyMem(old(State()), Event(eventId, TaskCompleted(task), taskType, station, at))
    {
      var first := FirstApply(eventId, at);
      if !first {
        assert seen == old(seen);
        return;
      }
      var d := ZERO.(completions := 1);
      var key := ClaimKey(taskType, station, task);
      if key in claims {
        d := d.(claimTime := at - claims[key], withClaim := 1);
      }
      NewEventCounts(old(State()), Event(eventId, TaskCompleted(task), taskType, station, at), d);
      Bump(RowKey(taskType, station, HourBucket(at)), d);
    }

    method ApplyLeaseExpired(eventId: string, task: string, taskType: string, station: string, at: Instant)
      modifies this
      ensures State() == ApplyMem(old(State()), Event(eventId, LeaseExpired(task), taskType, station, at))
    {
      var first := FirstApply(eventId, at);
      if !first {
        assert seen == old(seen);
        return;
      }
      var e := Event(eventId, LeaseExpired(task), taskType, station, at);
      NewEventCounts(old(State()), e, ZERO.(leaseExpiries := 1));
      Bump(KeyOf(e), ZERO.(leaseExpiries := 1));
    }

    method ApplyWeightDiscrepancy(eventId: string, taskType: string, station: string, at: Instant)
      modifies this
      ensures State() == ApplyMem(old(State()), Event(eventId, WeightDiscrepancy, taskType, station, at))
    {
      var first := FirstApply(eventId, at);
      if !first {
        assert seen == old(seen);
        return;
      }
      var e := Event(eventId, WeightDiscrepancy, taskType, station, at);
      NewEventCounts(old(State()), e, ZERO.(weighCheckDiverts := 1));
      Bump(KeyOf(e), ZERO.(weighCheckDiverts := 1));
    }

    method ApplyPackageManifested(eventId: string, taskType: string, station: string, at: Instant, onTime: bool)
      modifies this
      ensures State() == ApplyMem(old(State()), Event(eventId, PackageManifested(onTime), taskType, station, at))
    {
      var first := FirstApply(eventId, at);
      if !first {
        assert seen == old(seen);
        return;
      }
      var e := Event(eventId, PackageManifested(onTime), taskType, station, at);
      if onTime {
        NewEventCounts(old(State()), e, ZERO.(manifested := 1, onTime := 1));
        Bump(KeyOf(e), ZERO.(manifested := 1, onTime := 1));
      } else {
        NewEventCounts(old(State()), e, ZERO.(manifested := 1, late := 1));
        Bump(KeyOf(e), ZERO.(manifested := 1, late := 1));
      }
    }

    /**
     The rows of the window, half-open in time, and of the given process path and station where one is given; each once,
     with its totals, in no particular order.
     */
    method QueryRows(q: Query) returns (out: seq<ReportRow>)
      ensures forall i :: 0 <= i < |out| ==>
                && out[i].key in rows && q.from <= out[i].key.hour < q.to
                && (q.taskType == "" || out[i].key.taskType == q.taskType)
                && (q.station == "" || out[i].key.station == q.station)
                && ShowsTotals(out[i], rows[out[i].key])
      ensures forall k ::
                (k in rows && q.from <= k.hour < q.to
                 && (q.taskType == "" || k.taskType == q.taskType) && (q.station == "" || k.station == q.station))
                ==> exists i :: 0 <= i < |out| && out[i].key == k
      ensures forall i, j :: 0 <= i < j < |out| ==> out[i].key != out[j].key
    {
      out := [];
      var todo := rows.Keys;
      while todo != {}
        invariant todo <= rows.Keys
        invariant forall i :: 0 <= i < |out| ==> out[i].key in Selected(rows, q) && out[i].key !in todo && ShowsTotals(out[i], rows[out[i].key])
        invariant forall k :: k in Selected(rows, q) && k !in todo ==> exists i :: 0 <= i < |out| && out[i].key == k
        invariant forall i, j :: 0 <= i < j < |out| ==> out[i].key != out[j].key
        decreases todo
      {
        var k :| k in todo;
        todo := todo - {k};
        if Matches(q, k) {
          ghost var before := out;
          ReportShowsTotals(k, rows[k]);
          out := out + [ReportOf(k, rows[k])];
          assert out[|before|].key == k;
          forall x | x in Selected(rows, q) && x !in todo ensures exists i :: 0 <= i < |out| && out[i].key == x {
            if x != k {
              var i :| 0 <= i < |before| && before[i].key == x;
              assert out[i].key == x;
            }
          }
        }
      }
      forall k | k in rows && q.from <= k.hour < q.to
                 && (q.taskType == "" || k.taskType == q.taskType) && (q.station == "" || k.station == q.station)
        ensures exists i :: 0 <= i < |out| && out[i].key == k
      {
        assert k in Selected(rows, q);
      }
    }

    /** How far the read model lags `now`; zero when nothing was applied or the latest event is in the future. */
    method FreshnessLag(now: Instant) returns (lag: nat)
      ensures lag == if latest == 0 || now < latest then 0 else now - latest
    {
      if latest == 0 {
        return 0;
      }
      var l := now - latest;
      return if l < 0 then 0 else l;
    }
  }
}

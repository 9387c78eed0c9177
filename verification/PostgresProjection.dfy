/**
 The Postgres throughput projection (internal/adapters/outbound/analyticsstore/postgres_projection.go): every apply is
 one transaction over three tables, and a completion deletes the pending claim it used.
 */
module Projection {
  import opened Prelude
  import opened Throughput

  datatype ClaimId = ClaimId(taskType: string, station: string, task: string)

  /** analytics_processed_events (with occurred_at), throughput_rollup and analytics_pending_claims. */
  datatype Pg = Pg(processed: map<string, Instant>, rollup: Rollup, pending: map<ClaimId, Instant>)

  const EMPTY_PG: Pg := Pg(map[], map[], map[])

  function ClaimIdOf(e: Event): ClaimId
    requires e.kind.TaskClaimed? || e.kind.TaskCompleted?
  {
    ClaimId(e.taskType, e.station, e.kind.task)
  }

  function PendingInPg(pending: map<ClaimId, Instant>, e: Event): Option<Instant> {
    if e.kind.TaskCompleted? && ClaimIdOf(e) in pending then Some(pending[ClaimIdOf(e)]) else None
  }

  function ApplyPg(p: Pg, e: Event): Pg {
    if e.id in p.processed then p
    else
      Pg(p.processed[e.id := e.at],
         Added(p.rollup, e, PendingInPg(p.pending, e)),
         if e.kind.TaskClaimed? then p.pending[ClaimIdOf(e) := e.at]
         else if e.kind.TaskCompleted? then p.pending - {ClaimIdOf(e)}
         else p.pending)
  }

  /** What goes wrong in one transaction; an unknown commit took effect although it reported an error. */
  datatype TxFault = NoFault | AtBegin | AtClaim | AtPending | AtRollup | AtDelete | AtCommit | CommitUnknown

  /** The fault strikes a statement this apply runs before its commit, or the commit itself. */
  predicate Strikes(p: Pg, e: Event, fault: TxFault) {
    var isNew := e.id !in p.processed;
    match fault
    case NoFault => false
    case AtBegin => true
    case AtClaim => true
    case AtPending => isNew && (e.kind.TaskClaimed? || e.kind.TaskCompleted?)
    case AtRollup => isNew && !e.kind.TaskClaimed?
    case AtDelete => isNew && PendingInPg(p.pending, e).Some?
    case AtCommit => true
    case CommitUnknown => false
  }

  /** One transaction: all of the event's effect, or none of it; only an unknown commit hides an effect. */
  function ApplyTx(p: Pg, e: Event, fault: TxFault): (Pg, bool) {
    if Strikes(p, e, fault) then (p, false) else (ApplyPg(p, e), fault != CommitUnknown)
  }

  class PostgresProjection {
    var tables: Pg

    constructor ()
      ensures tables == EMPTY_PG
    {
      tables := EMPTY_PG;
    }

    /**
     The five Apply* methods, which differ in the kind of event. Either the whole effect of the event commits, its
     id with it, or nothing does.
     */
    method Apply(e: Event, fault: TxFault) returns (ok: bool)
      modifies this
      ensures (tables, ok) == ApplyTx(old(tables), e, fault)
    {
      if fault == AtBegin || fault == AtClaim {
        return false;
      }
      var tx := tables;
      if e.id !in tx.processed {
        tx := tx.(processed := tx.processed[e.id := e.at]);
        if e.kind.TaskClaimed? {
          if fault == AtPending {
            return false;
          }
          tx := tx.(pending := tx.pending[ClaimIdOf(e) := e.at]);
        } else {
          if fault == AtPending && e.kind.TaskCompleted? {
            return false;
          }
          var claimed := PendingInPg(tx.pending, e);
          if fault == AtRollup {
            return false;
          }
          tx := tx.(rollup := UpsertRollup(tx.rollup, KeyOf(e), Delta(e, claimed)));
          if claimed.Some? {
            if fault == AtDelete {
              return false;
            }
            tx := tx.(pending := tx.pending - {ClaimIdOf(e)});
          } else if e.kind.TaskCompleted? {
            assert tx.pending - {ClaimIdOf(e)} == tx.pending;
          }
        }
      }
      if fault == AtCommit {
        return false;
      }
      tables := tx;
      return fault != CommitUnknown;
    }
  }

  /** INSERT ... ON CONFLICT DO UPDATE, column by column: the row is made of the delta, or the delta is added to it. */
  function UpsertRollup(rollup: Rollup, k: RowKey, d: Acc): (r: Rollup)
    ensures r == rollup[k := RowOf(rollup, k).Plus(d)]
  {
    if k in rollup then rollup[k := rollup[k].Plus(d)]
    else
      assert ZERO.Plus(d) == d;
      rollup[k := d]
  }
}

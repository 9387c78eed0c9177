/**
 The in-memory task repository (internal/adapters/outbound/memory/task_repo.go) and, beside it, the
 SQL row predicates it stands in for (internal/adapters/outbound/postgres/task_repo.go).

 The source clones a task on every way in and out of the store, so nothing outside ever shares a stored task:
 the store therefore holds rows (values), and hands out fresh `Task` objects built from them.
 */
module TaskStore {
  import opened Prelude
  import opened Tasks

  type Rows = map<TaskId, Row>

  datatype Snapshot = Snapshot(status: Status, leaseExpiry: Option<Time>)

  function SnapshotOf(r: Row): Snapshot {
    Snapshot(r.status, if r.lease.Some? then Some(r.lease.value.expiry) else None)
  }

  predicate Claimable(s: Snapshot, now: Time) {
    s.status == Pending || (s.status == Claimed && s.leaseExpiry.Some? && s.leaseExpiry.value <= now)
  }

  /** The memory compare-and-set: refused only when a stored snapshot is not claimable. */
  function SaveClaimResult(rows: Rows, r: Row, now: Time): (Rows, bool) {
    if r.fixed.id in rows && !Claimable(SnapshotOf(rows[r.fixed.id]), now) then (rows, false)
    else (rows[r.fixed.id := r], true)
  }

  // ---- The SQL side: a row with nullable lease columns ----

  datatype SqlRow = SqlRow(fixed: Fixed, status: Status, leaseStation: Option<StationId>,
                           leaseExpiry: Option<Time>, claimedAt: Option<Time>)

  function ToSql(r: Row): SqlRow {
    match r.lease
    case None => SqlRow(r.fixed, r.status, None, None, r.claimedAt)
    case Some(l) => SqlRow(r.fixed, r.status, Some(l.station), Some(l.expiry), r.claimedAt)
  }

  /** scanTask: a lease only when both of its columns are there. */
  function FromSql(s: SqlRow): Row {
    Row(s.fixed, s.status,
        if s.leaseStation.Some? && s.leaseExpiry.Some? then Some(Lease(s.leaseStation.value, s.leaseExpiry.value)) else None,
        s.claimedAt)
  }

  /** status = 'PENDING' OR (status = 'CLAIMED' AND lease_expiry <= now); a NULL expiry compares to nothing. */
  predicate SqlClaimable(s: SqlRow, now: Time) {
    s.status == Pending || (s.status == Claimed && s.leaseExpiry.Some? && s.leaseExpiry.value <= now)
  }

  function TableOf(rows: Rows): map<TaskId, SqlRow> {
    map id | id in rows :: ToSql(rows[id])
  }

  datatype SqlClaim = NoLease | Affected(table: map<TaskId, SqlRow>, won: bool)

  /** The conditional UPDATE: four columns of a matching row, nothing when no row matches. */
  function SqlSaveClaim(table: map<TaskId, SqlRow>, r: Row, now: Time): SqlClaim {
    var id := r.fixed.id;
    if r.lease.None? then NoLease
    else if id in table && SqlClaimable(table[id], now) then
      Affected(table[id := table[id].(status := r.status, leaseStation := Some(r.lease.value.station),
                                      leaseExpiry := Some(r.lease.value.expiry), claimedAt := r.claimedAt)], true)
    else Affected(table, false)
  }

  /** A row survives the trip through the table, lease and all. */
  lemma SqlRoundTrip(r: Row)
    ensures FromSql(ToSql(r)) == r
  {
  }

  /**
   The memory compare-and-set and the SQL one agree on the verdict and on the whole resulting table if and
   only if the row exists and a winning claim changes none of its fixed columns. (On a missing row the memory
   repository inserts and reports a win where the UPDATE matches nothing.)
   */
  lemma MemoryCasRefinesSql(rows: Rows, r: Row, now: Time)
    requires r.lease.Some?
    requires forall id :: id in rows ==> rows[id].fixed.id == id
    ensures
      var (after, won) := SaveClaimResult(rows, r, now);
      var sql := SqlSaveClaim(TableOf(rows), r, now);
      (sql == Affected(TableOf(after), won)) <==>
      (r.fixed.id in rows && (IsAvailable(rows[r.fixed.id], now) ==> r.fixed == rows[r.fixed.id].fixed))
  {
    var id := r.fixed.id;
    var (after, won) := SaveClaimResult(rows, r, now);
    if id in rows && won {
      assert TableOf(after) == TableOf(rows)[id := ToSql(r)];
      var upd := SqlSaveClaim(TableOf(rows), r, now);
      assert upd.table[id].fixed == rows[id].fixed;
      assert TableOf(after)[id].fixed == r.fixed;
    }
  }

  // ---- The repository ----

  /** Same rows, earliest CPT first; ties in any order. */
  predicate SortedByCPT(s: seq<Task>) {
    forall i, j :: 0 <= i < j < |s| ==> s[i].fixed.cpt <= s[j].fixed.cpt
  }

  /** Some task of the list has this id. */
  predicate Lists(s: seq<Task>, id: TaskId) {
    exists i :: 0 <= i < |s| && s[i].fixed.id == id
  }

  function Views(s: seq<Task>): (v: seq<Row>)
    reads s
    ensures |v| == |s|
  {
    seq(|s|, i requires 0 <= i < |s| reads s => s[i].View())
  }

  /** `cands` lists, once each and earliest CPT first, exactly the available tasks of the type. */
  predicate IsCandidateList(rows: Rows, taskType: TaskType, now: Time, cands: seq<Row>) {
    && (forall i :: 0 <= i < |cands| ==>
          cands[i].fixed.id in rows && rows[cands[i].fixed.id] == cands[i] &&
          cands[i].fixed.taskType == taskType && IsAvailable(cands[i], now))
    && (forall i, j :: 0 <= i < j < |cands| ==> cands[i].fixed.id != cands[j].fixed.id)
    && (forall i, j :: 0 <= i < j < |cands| ==> cands[i].fixed.cpt <= cands[j].fixed.cpt)
    && (forall id :: id in rows && rows[id].fixed.taskType == taskType && IsAvailable(rows[id], now) ==>
          exists i :: 0 <= i < |cands| && cands[i].fixed.id == id)
  }

  class TaskRepo {
    var tasks: Rows
    var persisted: map<TaskId, Snapshot>

    /** Every key holds its own task, and the snapshot agrees with the stored task. */
    ghost predicate Valid()
      reads this
    {
      && tasks.Keys == persisted.Keys
      && (forall id :: id in tasks ==> tasks[id].fixed.id == id && persisted[id] == SnapshotOf(tasks[id]))
    }

    constructor ()
      ensures Valid() && tasks == map[]
    {
      tasks, persisted := map[], map[];
    }

    method Save(t: Task)
      requires Valid()
      modifies this
      ensures Valid()
      ensures tasks == old(tasks)[t.fixed.id := t.View()]
    {
      tasks := tasks[t.fixed.id := t.View()];
      persisted := persisted[t.fixed.id := SnapshotOf(t.View())];
    }

    /** The compare-and-set behind at-most-once claiming; it looks at the snapshot only. */
    method SaveClaim(t: Task, now: Time) returns (ok: bool)
      requires Valid()
      modifies this
      ensures Valid()
      ensures (tasks, ok) == SaveClaimResult(old(tasks), t.View(), now)
    {
      if t.fixed.id in persisted && !Claimable(persisted[t.fixed.id], now) {
        return false;
      }
      tasks := tasks[t.fixed.id := t.View()];
      persisted := persisted[t.fixed.id := SnapshotOf(t.View())];
      return true;
    }

    method FindById(id: TaskId) returns (r: Option<Task>)
      requires Valid()
      ensures r.None? <==> id !in tasks
      ensures r.Some? ==> fresh(r.value) && r.value.View() == tasks[id]
    {
      if id !in tasks {
        return None;
      }
      var copy := new Task.Rehydrate(tasks[id]);
      return Some(copy);
    }

    /** The available tasks of the type, as copies, earliest CPT first. */
    method FindClaimableByType(taskType: TaskType, now: Time) returns (result: seq<Task>)
      requires Valid()
      ensures fresh(result) && DistinctIds(result) && CopiesOf(tasks, result)
      ensures IsCandidateList(tasks, taskType, now, Views(result))
    {
      result := [];
      var todo := tasks.Keys;
      while todo != {}
        invariant todo <= tasks.Keys
        invariant fresh(result) && CopiesOf(tasks, result)
        invariant DistinctIds(result) && SortedByCPT(result)
        invariant forall id :: Lists(result, id) <==>
                    id in tasks && id !in todo && tasks[id].fixed.taskType == taskType && IsAvailable(tasks[id], now)
        decreases todo
      {
        var id :| id in todo;
        if tasks[id].fixed.taskType == taskType && IsAvailable(tasks[id], now) {
          var copy := new Task.Rehydrate(tasks[id]);
          result := InsertByCPT(result, copy);
        }
        todo := todo - {id};
      }
      CopiesAreCandidates(tasks, taskType, now, result);
    }

    /** The stored tasks that are Claimed, as copies. */
    method FindAllClaimed() returns (result: seq<Task>)
      requires Valid()
      ensures fresh(result) && DistinctIds(result) && CopiesOf(tasks, result)
      ensures forall id :: Lists(result, id) <==> id in tasks && tasks[id].status == Claimed
    {
      result := [];
      var todo := tasks.Keys;
      while todo != {}
        invariant todo <= tasks.Keys
        invariant fresh(result) && CopiesOf(tasks, result) && DistinctIds(result)
        invariant forall id :: Lists(result, id) <==> id in tasks && id !in todo && tasks[id].status == Claimed
        decreases todo
      {
        var id :| id in todo;
        if tasks[id].status == Claimed {
          var copy := new Task.Rehydrate(tasks[id]);
          InsertedAt(result, copy, |result|);
          assert result[..|result|] == result && result[|result|..] == [];
          result := result + [copy];
        }
        todo := todo - {id};
      }
    }
  }

  /** Each task of the list shows exactly its stored row. */
  ghost predicate CopiesOf(rows: Rows, s: seq<Task>)
    reads s
  {
    forall t :: t in s ==> t.fixed.id in rows && t.View() == rows[t.fixed.id]
  }

  lemma ViewsShowRows(rows: Rows, s: seq<Task>)
    requires CopiesOf(rows, s)
    ensures forall j :: 0 <= j < |s| ==> Views(s)[j].fixed.id in rows && Views(s)[j] == rows[Views(s)[j].fixed.id]
    ensures forall id :: Lists(s, id) ==> exists j :: 0 <= j < |s| && Views(s)[j].fixed.id == id
  {
    forall j | 0 <= j < |s| ensures Views(s)[j].fixed.id in rows && Views(s)[j] == rows[Views(s)[j].fixed.id] {
      assert s[j] in s;
    }
    forall id | Lists(s, id) ensures exists j :: 0 <= j < |s| && Views(s)[j].fixed.id == id {
      var j :| 0 <= j < |s| && s[j].fixed.id == id;
      assert Views(s)[j].fixed.id == id;
    }
  }

  lemma CopiesAreCandidates(rows: Rows, taskType: TaskType, now: Time, s: seq<Task>)
    requires CopiesOf(rows, s) && DistinctIds(s) && SortedByCPT(s)
    requires forall id :: Lists(s, id) <==> id in rows && rows[id].fixed.taskType == taskType && IsAvailable(rows[id], now)
    ensures IsCandidateList(rows, taskType, now, Views(s))
  {
    ViewsShowRows(rows, s);
    assert forall i :: 0 <= i < |s| ==> Lists(s, s[i].fixed.id);
  }

  predicate DistinctIds(s: seq<Task>) {
    forall i, j :: 0 <= i < j < |s| ==> s[i].fixed.id != s[j].fixed.id
  }

  /** A task put into a list at k: the list gains that task's id and nothing else. */
  lemma InsertedAt(s: seq<Task>, t: Task, k: nat)
    requires k <= |s|
    ensures forall id :: Lists(s[..k] + [t] + s[k..], id) <==> Lists(s, id) || id == t.fixed.id
    ensures DistinctIds(s) && !Lists(s, t.fixed.id) ==> DistinctIds(s[..k] + [t] + s[k..])
  {
    var r := s[..k] + [t] + s[k..];
    forall id ensures Lists(r, id) <==> Lists(s, id) || id == t.fixed.id {
      if Lists(s, id) {
        var i :| 0 <= i < |s| && s[i].fixed.id == id;
        assert r[if i < k then i else i + 1].fixed.id == id;
      }
      assert r[k] == t;
      if Lists(r, id) {
        var i :| 0 <= i < |r| && r[i].fixed.id == id;
        assert i != k ==> s[if i < k then i else i - 1].fixed.id == id;
      }
    }
    if DistinctIds(s) && !Lists(s, t.fixed.id) {
      forall i, j | 0 <= i < j < |r| ensures r[i].fixed.id != r[j].fixed.id {
        assert i != k ==> r[i] == s[if i < k then i else i - 1];
        assert j != k ==> r[j] == s[if j < k then j else j - 1];
      }
    }
  }

  /** One element put into a list sorted by CPT, at a place that keeps it sorted. */
  method InsertByCPT(s: seq<Task>, t: Task) returns (r: seq<Task>)
    requires SortedByCPT(s)
    ensures SortedByCPT(r)
    ensures |r| == |s| + 1
    ensures forall x :: x in r <==> x in s || x == t
    ensures forall id :: Lists(r, id) <==> Lists(s, id) || id == t.fixed.id
    ensures DistinctIds(s) && !Lists(s, t.fixed.id) ==> DistinctIds(r)
  {
    var k := 0;
    while k < |s| && s[k].fixed.cpt <= t.fixed.cpt
      invariant 0 <= k <= |s|
      invariant forall i :: 0 <= i < k ==> s[i].fixed.cpt <= t.fixed.cpt
    {
      k := k + 1;
    }
    r := s[..k] + [t] + s[k..];
    InsertedAt(s, t, k);
  }
}

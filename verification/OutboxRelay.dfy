/**
 The transactional outbox and its relay (internal/adapters/outbound/postgres/outbox_relay.go): rows are sent one at
 a time in id order inside a transaction that marks them, stopping at the first failed send.

 One relay, and rows that become visible in id order: a row's id is its place in `rows`. Rows that become visible in any
 order are in module OutboxVisibility.
 */
module OutboxRelay {
  import opened Prelude
  import opened Interleaving
  import Outbox

  datatype OutboxRow<E> = OutboxRow(message: E, published: bool, attempts: nat, failed: bool)

  /** What befalls one row of a pass. */
  datatype RowFate =
    | Delivered            // sent and marked
    | SendFailed           // the sink refused it
    | SendAmbiguous        // the sink has it, but the relay was told otherwise
    | MarkFailed           // sent, but the mark's UPDATE failed
    | CrashedBeforeSend
    | CrashedAfterSend

  /** What befalls the pass's commit. An error may hide a commit that took effect. */
  datatype CommitFate = CommitOk | CommitLost | CommitAmbiguous

  /**
   Everything the environment decides during one pass: whether the transaction cannot begin or claim its rows, and
   whether the UPDATE that notes a failed send fails.
   */
  datatype Env = Env(claimFails: bool, fate: nat -> RowFate, recordFails: bool, commit: CommitFate)

  datatype PassError = Claiming | Sending | Marking | Committing | Crashed

  // ---- One pass, as a value ----

  /** The working copy of the table, the sink's log (row ids in arrival order) and the number marked. */
  datatype Progress<E> = Progress(table: seq<OutboxRow<E>>, log: seq<nat>, published: nat)

  /** How the sending loop ended. */
  datatype Ending = AllSent | Failed(id: nat) | MarkError | Crash

  function Marked<E>(r: OutboxRow<E>): OutboxRow<E> {
    r.(published := true, attempts := r.attempts + 1, failed := false)
  }

  function Noted<E>(r: OutboxRow<E>): OutboxRow<E> {
    r.(attempts := r.attempts + 1, failed := true)
  }

  /** Up to `size` unpublished ids, oldest first, from id `from` on. */
  function Claim<E>(rows: seq<OutboxRow<E>>, from: nat, size: nat): (batch: seq<nat>)
    ensures |batch| <= size
    ensures forall i :: 0 <= i < |batch| ==> from <= batch[i] < |rows| && !rows[batch[i]].published
    ensures forall i, j :: 0 <= i < j < |batch| ==> batch[i] < batch[j]
    decreases |rows| - from
  {
    if from >= |rows| || size == 0 then []
    else if rows[from].published then Claim(rows, from + 1, size)
    else [from] + Claim(rows, from + 1, size - 1)
  }

  function SendAll<E>(p: Progress<E>, batch: seq<nat>, fate: nat -> RowFate): (Progress<E>, Ending)
    requires forall i :: 0 <= i < |batch| ==> batch[i] < |p.table|
    decreases |batch|
  {
    if batch == [] then (p, AllSent)
    else
      var id := batch[0];
      var sent := p.(log := p.log + [id]);
      match fate(id)
      case Delivered =>
        SendAll(Progress(p.table[id := Marked(p.table[id])], sent.log, p.published + 1), batch[1..], fate)
      case SendFailed => (p, Failed(id))
      case SendAmbiguous => (sent, Failed(id))
      case MarkFailed => (sent, MarkError)
      case CrashedBeforeSend => (p, Crash)
      case CrashedAfterSend => (sent, Crash)
  }

  /** The sending loop of a pass, over the rows it claimed: none if it could not claim. */
  function Sent<E>(rows: seq<OutboxRow<E>>, log: seq<nat>, size: nat, env: Env): (Progress<E>, Ending) {
    SendAll(Progress(rows, log, 0), if env.claimFails then [] else Claim(rows, 0, size), env.fate)
  }

  /** The table and log after a pass: what committed, and everything the sink got, committed or not. */
  function PassResult<E>(rows: seq<OutboxRow<E>>, log: seq<nat>, size: nat, env: Env): (seq<OutboxRow<E>>, seq<nat>) {
    if env.claimFails then (rows, log) else PassOver(rows, log, Claim(rows, 0, size), env)
  }

  /** The same for the rows a pass has claimed. */
  function PassOver<E>(rows: seq<OutboxRow<E>>, log: seq<nat>, batch: seq<nat>, env: Env): (seq<OutboxRow<E>>, seq<nat>)
    requires forall i :: 0 <= i < |batch| ==> batch[i] < |rows|
  {
    var (p, ending) := SendAll(Progress(rows, log, 0), batch, env.fate);
    match ending
    case AllSent => (if env.commit == CommitLost then rows else p.table, p.log)
    case Failed(id) =>
      // A failed UPDATE aborts the transaction, so its commit rolls back.
      (if env.recordFails || env.commit == CommitLost || id >= |p.table| then rows else p.table[id := Noted(p.table[id])], p.log)
    case MarkError => (rows, p.log)
    case Crash => (rows, p.log)
  }

  // ---- The relay ----

  class OutboxRelay<E> {
    const batchSize: nat
    var rows: seq<OutboxRow<E>>
    var log: seq<nat>

    constructor (batchSize: nat)
      ensures this.batchSize == batchSize && rows == [] && log == []
    {
      this.batchSize := batchSize;
      rows, log := [], [];
    }

    /** OutboxPublisher.Publish: one row per encoded message, in order, up to the first failure of any kind. */
    method Publish(encodings: seq<Outbox.Encoding<E>>) returns (end: Outbox.Ending)
      modifies this`rows
      ensures rows == old(rows) + Fresh(Outbox.Published(encodings).0)
      ensures end == Outbox.Published(encodings).1
    {
      ghost var (all, goal) := Outbox.Published(encodings);
      var i := 0;
      while i < |encodings|
        invariant 0 <= i <= |encodings|
        invariant rows + Fresh(Outbox.Published(encodings[i..]).0) == old(rows) + Fresh(all)
        invariant Outbox.Published(encodings[i..]).1 == goal
      {
        assert encodings[i..][0] == encodings[i] && encodings[i..][1..] == encodings[i + 1..];
        if encodings[i].EncodeError? {
          return Outbox.ProgramError;
        }
        var messages := encodings[i].messages;
        ghost var these := Outbox.Enqueued(messages).0;
        end := PublishOne(messages);
        if end != Outbox.Stored {
          return;
        }
        ghost var more := Outbox.Published(encodings[i + 1..]).0;
        assert Fresh(these + more) == Fresh(these) + Fresh(more);
        i := i + 1;
      }
      return Outbox.Stored;
    }

    /** The inner loop, over one encoder's messages. */
    method PublishOne(messages: seq<Outbox.Outgoing<E>>) returns (end: Outbox.Ending)
      modifies this`rows
      ensures rows == old(rows) + Fresh(Outbox.Enqueued(messages).0)
      ensures end == Outbox.Enqueued(messages).1
    {
      ghost var (all, goal) := Outbox.Enqueued(messages);
      var i := 0;
      while i < |messages|
        invariant 0 <= i <= |messages|
        invariant rows + Fresh(Outbox.Enqueued(messages[i..]).0) == old(rows) + Fresh(all)
        invariant Outbox.Enqueued(messages[i..]).1 == goal
      {
        assert messages[i..][0] == messages[i] && messages[i..][1..] == messages[i + 1..];
        if messages[i].BadHeaders? {
          return Outbox.ProgramError;
        }
        if messages[i].InsertFails? {
          return Outbox.StatementError;
        }
        ghost var more := Outbox.Enqueued(messages[i + 1..]).0;
        assert Fresh([messages[i].message] + more) == [OutboxRow(messages[i].message, false, 0, false)] + Fresh(more);
        rows := rows + [OutboxRow(messages[i].message, false, 0, false)];
        i := i + 1;
      }
      return Outbox.Stored;
    }

    /**
     One pass. The transaction's working copy replaces the table only when a commit takes effect; what the sink
     has received stays received.
     */
    method RelayOnce(env: Env) returns (published: nat, err: Option<PassError>)
      modifies this
      ensures (rows, log) == PassResult(old(rows), old(log), batchSize, env)
      ensures published == Sent(old(rows), old(log), batchSize, env).0.published
      ensures err.None? <==> !env.claimFails && Sent(old(rows), old(log), batchSize, env).1 == AllSent && env.commit == CommitOk
    {
      if env.claimFails {
        return 0, Some(Claiming);
      }
      var batch := ClaimBatch();
      var tx;
      tx, published, err := PublishBatch(batch, env);
      if err.Some? {
        return;
      }
      if env.commit != CommitLost {
        rows := tx;
      }
      err := if env.commit == CommitOk then None else Some(Committing);
    }

    /** The sending loop: each row sent and marked in turn, up to the first that cannot be. */
    method PublishBatch(batch: seq<nat>, env: Env) returns (tx: seq<OutboxRow<E>>, published: nat, err: Option<PassError>)
      requires forall i :: 0 <= i < |batch| ==> batch[i] < |rows|
      requires forall i, j :: 0 <= i < j < |batch| ==> batch[i] < batch[j]
      modifies this
      ensures
        var (p, ending) := SendAll(Progress(old(rows), old(log), 0), batch, env.fate);
        && log == p.log && published == p.published && (err.None? <==> ending == AllSent)
        && (ending == AllSent ==> tx == p.table && rows == old(rows))
        && (ending.Failed? ==> ending.id < |p.table| && rows == if env.recordFails || env.commit == CommitLost then old(rows)
                                                               else p.table[ending.id := Noted(p.table[ending.id])])
        && (ending == MarkError || ending == Crash ==> rows == old(rows))
    {
      tx, published := rows, 0;
      ghost var goal := SendAll(Progress(rows, log, 0), batch, env.fate);
      var i := 0;
      while i < |batch|
        invariant 0 <= i <= |batch| && published == i
        invariant rows == old(rows) && tx == MarkAll(rows, batch, i)
        invariant goal == SendAll(Progress(tx, log, published), batch[i..], env.fate)
      {
        var id := batch[i];
        assert batch[i..][0] == id && batch[i..][1..] == batch[i + 1..];
        var fate := env.fate(id);
        if fate == CrashedBeforeSend {
          return tx, published, Some(Crashed);
        }
        if fate == SendFailed || fate == SendAmbiguous {
          if fate == SendAmbiguous {
            log := log + [id];
          }
          MarkAllIs(rows, batch, i);
          NotBefore(batch, i);
          FailRow(tx, batch[..i], id, env);
          return tx, published, Some(Sending);
        }
        log := log + [id];
        if fate == CrashedAfterSend {
          return tx, published, Some(Crashed);
        }
        if fate == MarkFailed {
          return tx, published, Some(Marking);
        }
        tx := tx[id := Marked(tx[id])];
        published := published + 1;
        i := i + 1;
      }
      err := None;
    }

    /**
     The first failed send, of row `id`, in a transaction that has marked the rows `sent` before it. If the note and
     the commit succeed, exactly those rows become published, the failed one carries its error and stays claimable, and
     every other row is untouched; otherwise the table is as before the pass, sent rows included.
     */
    method FailRow(tx: seq<OutboxRow<E>>, sent: seq<nat>, id: nat, env: Env)
      requires id < |rows| && id !in sent && IsMarking(rows, sent, tx)
      modifies this`rows
      ensures rows == if env.recordFails || env.commit == CommitLost then old(rows) else tx[id := Noted(tx[id])]
      ensures log == old(log)
      ensures |rows| == |old(rows)|
      ensures !env.recordFails && env.commit != CommitLost ==>
                forall i :: 0 <= i < |rows| ==>
                  rows[i] == if i in sent then old(rows)[i].(published := true, attempts := old(rows)[i].attempts + 1, failed := false)
                             else if i == id then old(rows)[i].(attempts := old(rows)[i].attempts + 1, failed := true)
                             else old(rows)[i]
      ensures old(rows)[id].published == rows[id].published
    {
      if !env.recordFails && env.commit != CommitLost {
        rows := tx[id := Noted(tx[id])];
      }
    }

    /** SELECT ... WHERE published_at IS NULL ORDER BY id LIMIT batchSize. */
    method ClaimBatch() returns (batch: seq<nat>)
      ensures batch == Claim(rows, 0, batchSize)
    {
      batch := [];
      var id := 0;
      while id < |rows| && |batch| < batchSize
        invariant 0 <= id <= |rows| && |batch| <= batchSize
        invariant Claim(rows, 0, batchSize) == batch + Claim(rows, id, batchSize - |batch|)
      {
        if !rows[id].published {
          ghost var rest := Claim(rows, id + 1, batchSize - |batch| - 1);
          assert batch + ([id] + rest) == batch + [id] + rest;
          batch := batch + [id];
        }
        id := id + 1;
      }
    }
  }

  /** The transaction's working copy: the rows sent so far are marked, and nothing else. */
  ghost predicate IsMarking<E>(rows: seq<OutboxRow<E>>, sent: seq<nat>, tx: seq<OutboxRow<E>>) {
    |tx| == |rows| && forall i :: 0 <= i < |rows| ==> 
      tx[i] == if i in sent then rows[i].(published := true, attempts := rows[i].attempts + 1, failed := false) else rows[i]
  }

  /** The rows with the first n of a batch marked. */
  function MarkAll<E>(rows: seq<OutboxRow<E>>, batch: seq<nat>, n: nat): (tx: seq<OutboxRow<E>>)
    requires n <= |batch| && forall i :: 0 <= i < |batch| ==> batch[i] < |rows|
    ensures |tx| == |rows|
  {
    if n == 0 then rows
    else var tx := MarkAll(rows, batch, n - 1); tx[batch[n - 1] := Marked(tx[batch[n - 1]])]
  }

  lemma NotBefore(batch: seq<nat>, n: nat)
    requires n < |batch| && forall i, j :: 0 <= i < j < |batch| ==> batch[i] < batch[j]
    ensures batch[n] !in batch[..n]
  {
  }

  lemma {:induction false} MarkAllIs<E>(rows: seq<OutboxRow<E>>, batch: seq<nat>, n: nat)
    requires n <= |batch| && forall i :: 0 <= i < |batch| ==> batch[i] < |rows|
    requires forall i, j :: 0 <= i < j < |batch| ==> batch[i] < batch[j]
    ensures IsMarking(rows, batch[..n], MarkAll(rows, batch, n))
  {
    if n > 0 {
      MarkAllIs(rows, batch, n - 1);
      NotBefore(batch, n - 1);
      assert batch[..n] == batch[..n - 1] + [batch[n - 1]];
    }
  }

  function Fresh<E>(messages: seq<E>): (r: seq<OutboxRow<E>>)
    ensures |r| == |messages|
  {
    seq(|messages|, i requires 0 <= i < |messages| => OutboxRow(messages[i], false, 0, false))
  }

  // ---- What every pass keeps ----

  /** Exactly the first p rows are published. */
  predicate PublishedUpTo<E>(rows: seq<OutboxRow<E>>, p: nat) {
    p <= |rows| && forall i :: 0 <= i < |rows| ==> (rows[i].published <==> i < p)
  }

  /** The sink has seen exactly the first k rows, and saw them for the first time in id order. */
  predicate SentUpTo(log: seq<nat>, k: nat) {
    FirstOccurrences(log) == UpTo(k)
  }

  ghost predicate RelayInv<E>(rows: seq<OutboxRow<E>>, log: seq<nat>, p: nat, k: nat) {
    PublishedUpTo(rows, p) && SentUpTo(log, k) && p <= k <= |rows|
  }

  lemma {:induction false} ClaimAt<E>(rows: seq<OutboxRow<E>>, from: nat, size: nat, p: nat)
    requires PublishedUpTo(rows, p)
    ensures var first := if from < p then p else from;
            var n := if first >= |rows| then 0 else if |rows| - first < size then |rows| - first else size;
            |Claim(rows, from, size)| == n && forall i :: 0 <= i < n ==> Claim(rows, from, size)[i] == first + i
    decreases |rows| - from
  {
    if from < |rows| && size > 0 {
      if rows[from].published {
        ClaimAt(rows, from + 1, size, p);
      } else {
        ClaimAt(rows, from + 1, size - 1, p);
      }
    }
  }

  /** Sending the next unsent row, or any earlier one again, keeps the sink's first occurrences in order. */
  lemma SendOne(log: seq<nat>, k: nat, id: nat)
    requires SentUpTo(log, k) && id <= k
    ensures SentUpTo(log + [id], if id == k then k + 1 else k)
  {
    FirstOccurrencesSnoc(log, id);
    UpToMembers(k, id);
    UpToSnoc(k);
  }

  lemma MarkNext<E>(rows: seq<OutboxRow<E>>, id: nat)
    requires PublishedUpTo(rows, id) && id < |rows|
    ensures PublishedUpTo(rows[id := Marked(rows[id])], id + 1)
  {
  }

  /** The sending loop over consecutive rows from `first` on. */
  lemma {:induction false} SendAllKeeps<E>(p: Progress<E>, batch: seq<nat>, fate: nat -> RowFate, first: nat, k: nat) returns (done: nat, k': nat)
    requires PublishedUpTo(p.table, first) && SentUpTo(p.log, k) && first <= k <= |p.table|
    requires forall i :: 0 <= i < |batch| ==> batch[i] == first + i && batch[i] < |p.table|
    ensures
      var (q, ending) := SendAll(p, batch, fate);
      && |q.table| == |p.table|
      && PublishedUpTo(q.table, done) && first <= done <= first + |batch|
      && q.published == p.published + (done - first)
      && SentUpTo(q.log, k') && k <= k' && done <= k' <= |q.table|
      && (ending == AllSent <==> done == first + |batch|)
      && (ending.Failed? ==> ending.id == done && done < first + |batch|)
    decreases |batch|
  {
    if batch == [] {
      done, k' := first, k;
    } else {
      var id := batch[0];
      SendOne(p.log, k, id);
      var k1 := if id == k then k + 1 else k;
      match fate(id)
      case Delivered =>
        var q := Progress(p.table[id := Marked(p.table[id])], p.log + [id], p.published + 1);
        MarkNext(p.table, id);
        done, k' := SendAllKeeps(q, batch[1..], fate, first + 1, k1);
      case SendFailed => done, k' := first, k;
      case CrashedBeforeSend => done, k' := first, k;
      case _ => done, k' := first, k1;
    }
  }

  /**
   Any pass, whatever fails in it: the published rows stay a prefix that only grows, the sink's first occurrences
   stay the rows in id order, and nothing is marked that was not sent.
   */
  lemma PassKeepsInv<E>(rows: seq<OutboxRow<E>>, log: seq<nat>, size: nat, env: Env, p: nat, k: nat) returns (p': nat, k': nat)
    requires RelayInv(rows, log, p, k)
    ensures var (rows', log') := PassResult(rows, log, size, env);
            && RelayInv(rows', log', p', k') && p <= p' && k <= k' && log <= log'
            && |rows'| == |rows| && forall i :: 0 <= i < |rows| ==> rows'[i].message == rows[i].message
  {
    if env.claimFails {
      return p, k;
    }
    ClaimAt(rows, 0, size, p);
    var batch := Claim(rows, 0, size);
    var start := Progress(rows, log, 0);
    var done;
    done, k' := SendAllKeeps(start, batch, env.fate, p, k);
    SendAllFrame(start, batch, env.fate);
    var (rows', log') := PassResult(rows, log, size, env);
    p' := if rows' == rows then p else done;
  }

  lemma {:induction false} SendAllFrame<E>(p: Progress<E>, batch: seq<nat>, fate: nat -> RowFate)
    requires forall i :: 0 <= i < |batch| ==> batch[i] < |p.table|
    ensures var (q, _) := SendAll(p, batch, fate);
            && p.log <= q.log && |q.table| == |p.table|
            && forall i :: 0 <= i < |p.table| ==> q.table[i].message == p.table[i].message
    decreases |batch|
  {
    if batch != [] {
      var id := batch[0];
      if fate(id) == Delivered {
        SendAllFrame(Progress(p.table[id := Marked(p.table[id])], p.log + [id], p.published + 1), batch[1..], fate);
      }
    }
  }

  // ---- Runs ----

  datatype Act<!E> = Enqueue(messages: seq<E>) | Pass(env: Env)

  /** Publishing (each a committed scope) and relay passes, in any order. */
  function Run<E>(acts: seq<Act<E>>, size: nat): (seq<OutboxRow<E>>, seq<nat>)
    decreases |acts|
  {
    if acts == [] then ([], [])
    else
      var (rows, log) := Run(acts[..|acts| - 1], size);
      match acts[|acts| - 1]
      case Enqueue(messages) => (rows + Fresh(messages), log)
      case Pass(env) => PassResult(rows, log, size, env)
  }

  /**
   In every reachable state, whatever sends, marks and commits fail and wherever the relay crashes: every row marked
   published has been sent, published and sent rows are prefixes of the outbox in id order, and the sink saw each
   row for the first time in that order.
   */
  lemma {:induction false} DrainsInOrder<E>(acts: seq<Act<E>>, size: nat) returns (p: nat, k: nat)
    ensures var (rows, log) := Run(acts, size); RelayInv(rows, log, p, k)
    decreases |acts|
  {
    if acts == [] {
      p, k := 0, 0;
    } else {
      var init := acts[..|acts| - 1];
      var p0, k0 := DrainsInOrder(init, size);
      var (rows, log) := Run(init, size);
      match acts[|acts| - 1]
      case Enqueue(messages) => p, k := p0, k0;
      case Pass(env) => p, k := PassKeepsInv(rows, log, size, env, p0, k0);
    }
  }

  // ---- Nothing is lost ----

  /** No fault anywhere in the pass. */
  ghost predicate Clean(env: Env) {
    !env.claimFails && env.commit != CommitLost && forall id: nat :: env.fate(id) == Delivered
  }

  lemma {:induction false} CleanSend<E>(p: Progress<E>, batch: seq<nat>, fate: nat -> RowFate)
    requires forall i :: 0 <= i < |batch| ==> batch[i] < |p.table|
    requires forall id: nat :: fate(id) == Delivered
    ensures SendAll(p, batch, fate).1 == AllSent
    decreases |batch|
  {
    if batch != [] {
      var id := batch[0];
      CleanSend(Progress(p.table[id := Marked(p.table[id])], p.log + [id], p.published + 1), batch[1..], fate);
    }
  }

  /** However often passes failed before, a clean pass publishes the next batch in full. */
  lemma CleanPassPublishes<E>(rows: seq<OutboxRow<E>>, log: seq<nat>, size: nat, env: Env, p: nat, k: nat) returns (k': nat)
    requires RelayInv(rows, log, p, k) && Clean(env)
    ensures var (rows', log') := PassResult(rows, log, size, env);
            RelayInv(rows', log', if |rows| - p < size then |rows| else p + size, k')
  {
    ClaimAt(rows, 0, size, p);
    var start := Progress(rows, log, 0);
    var batch := Claim(rows, 0, size);
    CleanSend(start, batch, env.fate);
    var done;
    done, k' := SendAllKeeps(start, batch, env.fate, p, k);
  }
}

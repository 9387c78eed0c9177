/**
 Transaction scopes (internal/adapters/outbound/postgres/unit_of_work.go): the outermost Execute owns one transaction,
 nested calls join it; what the idempotency middleware makes of a joined scope; and the outbox publisher's writes
 inside a scope (outbox_publisher.go).
 */
module Scopes {
  import opened Prelude
  import opened Outbox

  // A row written, by name.
  type Write = nat

  /** What runs inside a scope. */
  datatype Prog =
    | Done
    | Save(w: Write)
    | SqlError                             // a failing statement: an error, and the transaction is aborted
    | Fail                                 // an error that never reached the database
    | Panic
    | Then(first: Prog, second: Prog)      // the second part runs when the first returned no error
    | Scope(body: Prog)                    // UnitOfWork.Execute
    | Ignore(body: Prog)                   // a caller that swallows the error

  datatype Outcome = Returned | Failed | Panicked

  datatype Tx = Tx(pending: seq<Write>, aborted: bool)

  /** What the database makes of the owner's begin and commit; CommitUnknown takes effect and still reports an error. */
  datatype Fate = CannotBegin | CommitOk | CommitLost | CommitUnknown

  // ---- Inside a transaction ----

  /** A program run on an open transaction: a nested scope simply runs on, and rolls nothing back. */
  function RunIn(p: Prog, tx: Tx): (Tx, Outcome) {
    match p
    case Done => (tx, Returned)
    case Save(w) => if tx.aborted then (tx, Failed) else (tx.(pending := tx.pending + [w]), Returned)
    case SqlError => (tx.(aborted := true), Failed)
    case Fail => (tx, Failed)
    case Panic => (tx, Panicked)
    case Then(a, b) =>
      var (tx1, out) := RunIn(a, tx);
      if out == Returned then RunIn(b, tx1) else (tx1, out)
    case Scope(body) => RunIn(body, tx)
    case Ignore(body) =>
      var (tx1, out) := RunIn(body, tx);
      (tx1, if out == Failed then Returned else out)
  }

  /** All the writes of a program, in order. */
  function Writes(p: Prog): seq<Write> {
    match p
    case Save(w) => [w]
    case Then(a, b) => Writes(a) + Writes(b)
    case Scope(body) => Writes(body)
    case Ignore(body) => Writes(body)
    case _ => []
  }

  /** No error is swallowed on the way up. */
  predicate Propagates(p: Prog) {
    match p
    case Then(a, b) => Propagates(a) && Propagates(b)
    case Scope(body) => Propagates(body)
    case Ignore(_) => false
    case _ => true
  }

  /** Whether the owner's commit takes effect: a commit of an aborted transaction rolls it back. */
  predicate TakesEffect(tx: Tx, out: Outcome, fate: Fate) {
    out == Returned && !tx.aborted && fate != CommitLost
  }

  datatype Database = Database(committed: seq<Write>, begun: nat)

  /** The outermost Execute. */
  function RunOwner(p: Prog, db: Database, fate: Fate): (Database, Outcome) {
    if fate == CannotBegin then (db, Failed)
    else
      var (tx, out) := RunIn(p, Tx([], false));
      (Database(if TakesEffect(tx, out, fate) then db.committed + tx.pending else db.committed, db.begun + 1),
       if out != Returned then out
       else if tx.aborted || fate != CommitOk then Failed else Returned)
  }

  class UnitOfWork {
    var db: Database
    // The transaction bound to the context, if any.
    var bound: Option<Tx>

    constructor ()
      ensures db == Database([], 0) && bound == None
    {
      db, bound := Database([], 0), None;
    }

    /** Runs the program in the bound transaction, or as the owner of a new one. */
    method Execute(p: Prog, fate: Fate) returns (out: Outcome)
      modifies this
      ensures old(bound).None? ==> (db, out) == RunOwner(p, old(db), fate) && bound == None
      ensures old(bound).Some? ==> (bound, out) == (Some(RunIn(p, old(bound).value).0), RunIn(p, old(bound).value).1) && db == old(db)
      decreases p, 1
    {
      if bound.Some? {
        out := Run(p);
        return;
      }
      if fate == CannotBegin {
        return Failed;
      }
      db := db.(begun := db.begun + 1);
      bound := Some(Tx([], false));
      out := Run(p);
      var tx := bound.value;
      bound := None;
      if out != Returned {
        return;
      }
      if tx.aborted || fate == CommitLost {
        return Failed;
      }
      db := db.(committed := db.committed + tx.pending);
      out := if fate == CommitOk then Returned else Failed;
    }

    /** The program's own steps, on the bound transaction. */
    method Run(p: Prog) returns (out: Outcome)
      requires bound.Some?
      modifies this
      ensures bound == Some(RunIn(p, old(bound).value).0) && out == RunIn(p, old(bound).value).1 && db == old(db)
      decreases p, 0
    {
      match p {
        case Done => out := Returned;
        case Save(w) =>
          if bound.value.aborted {
            out := Failed;
          } else {
            bound := Some(bound.value.(pending := bound.value.pending + [w]));
            out := Returned;
          }
        case SqlError =>
          bound := Some(bound.value.(aborted := true));
          out := Failed;
        case Fail => out := Failed;
        case Panic => out := Panicked;
        case Then(a, b) =>
          out := Run(a);
          if out == Returned {
            out := Run(b);
          }
        case Scope(body) => out := Execute(body, CommitOk);
        case Ignore(body) =>
          out := Run(body);
          if out == Failed {
            out := Returned;
          }
      }
    }
  }

  // ---- All or nothing ----

  /** With errors and panics propagating, a program that returns has made all its writes. */
  lemma {:induction false} ReturnsWithAll(p: Prog, tx: Tx)
    requires Propagates(p) && !tx.aborted
    ensures var (tx1, out) := RunIn(p, tx);
            out == Returned ==> tx1 == Tx(tx.pending + Writes(p), false)
  {
    match p
    case Then(a, b) =>
      ReturnsWithAll(a, tx);
      var (tx1, out) := RunIn(a, tx);
      if out == Returned {
        ReturnsWithAll(b, tx1);
        assert tx.pending + Writes(a) + Writes(b) == tx.pending + (Writes(a) + Writes(b));
      }
    case Scope(body) => ReturnsWithAll(body, tx);
    case _ =>
  }

  /**
   However scopes nest: when errors and panics propagate, the outermost Execute opens exactly one transaction and
   leaves all the writes or the initial state; and a call that reports success has left all of them.
   */
  lemma AllOrNothing(p: Prog, db: Database, fate: Fate)
    requires Propagates(p)
    ensures var (db', out) := RunOwner(p, db, fate);
            && db'.begun == db.begun + (if fate == CannotBegin then 0 else 1)
            && (db'.committed == db.committed + Writes(p) || db'.committed == db.committed)
            && (out == Returned ==> db'.committed == db.committed + Writes(p))
            && (out == Panicked ==> db'.committed == db.committed)
            && (out == Failed && fate != CommitUnknown ==> db'.committed == db.committed)
  {
    ReturnsWithAll(p, Tx([], false));
    assert [] + Writes(p) == Writes(p);
    var (tx, out) := RunIn(p, Tx([], false));
    assert out == Returned ==> tx == Tx(Writes(p), false);
  }

  /** Taking the inner scopes away changes nothing: a nested scope is only its body. */
  function Flattened(p: Prog): Prog {
    match p
    case Then(a, b) => Then(Flattened(a), Flattened(b))
    case Scope(body) => Flattened(body)
    case Ignore(body) => Ignore(Flattened(body))
    case _ => p
  }

  predicate ScopeFree(p: Prog) {
    match p
    case Then(a, b) => ScopeFree(a) && ScopeFree(b)
    case Scope(_) => false
    case Ignore(body) => ScopeFree(body)
    case _ => true
  }

  lemma {:induction false} NestedScopesJoin(p: Prog, tx: Tx)
    ensures ScopeFree(Flattened(p)) && RunIn(Flattened(p), tx) == RunIn(p, tx)
  {
    match p
    case Then(a, b) =>
      NestedScopesJoin(a, tx);
      NestedScopesJoin(b, RunIn(a, tx).0);
    case Scope(body) => NestedScopesJoin(body, tx);
    case Ignore(body) => NestedScopesJoin(body, tx);
    case _ =>
  }

  // ---- The outbox publisher in a scope ----

  function StoreAll(messages: seq<Outgoing<Write>>): Prog {
    if messages == [] then Done
    else
      Then(match messages[0] case Row(w) => Save(w) case BadHeaders => Fail case InsertFails => SqlError,
           StoreAll(messages[1..]))
  }

  /** OutboxPublisher.Publish: every encoder's messages in turn, stopping at the first error of any kind. */
  function Publish(encodings: seq<Encoding<Write>>): Prog {
    if encodings == [] then Done
    else
      Then(match encodings[0] case EncodeError => Fail case Encoded(messages) => StoreAll(messages),
           Publish(encodings[1..]))
  }

  /** What a transaction is left with by a program that wrote this much and ended so. */
  function Left(tx: Tx, writes: seq<Write>, end: Ending): (Tx, Outcome) {
    (Tx(tx.pending + writes, end == StatementError), if end == Stored then Returned else Failed)
  }

  lemma LeftAfter(tx: Tx, first: seq<Write>, writes: seq<Write>, end: Ending)
    ensures Left(Left(tx, first, Stored).0, writes, end) == Left(tx, first + writes, end)
  {
    assert tx.pending + first + writes == tx.pending + (first + writes);
  }

  lemma {:induction false} StoresAll(messages: seq<Outgoing<Write>>, tx: Tx)
    requires !tx.aborted
    ensures RunIn(StoreAll(messages), tx) == Left(tx, Enqueued(messages).0, Enqueued(messages).1)
    decreases |messages|
  {
    assert tx.pending + [] == tx.pending;
    if messages != [] && messages[0].Row? {
      var tx1 := Left(tx, [messages[0].message], Stored).0;
      StoresAll(messages[1..], tx1);
      LeftAfter(tx, [messages[0].message], Enqueued(messages[1..]).0, Enqueued(messages[1..]).1);
    }
  }

  /** In a scope the publisher writes what it enqueues, and aborts the transaction exactly on a statement error. */
  lemma {:induction false} Publishes(encodings: seq<Encoding<Write>>, tx: Tx)
    requires !tx.aborted
    ensures RunIn(Publish(encodings), tx) == Left(tx, Published(encodings).0, Published(encodings).1)
    decreases |encodings|
  {
    assert tx.pending + [] == tx.pending;
    if encodings != [] && encodings[0].Encoded? {
      var (first, end) := Enqueued(encodings[0].messages);
      StoresAll(encodings[0].messages, tx);
      if end == Stored {
        Publishes(encodings[1..], Left(tx, first, Stored).0);
        LeftAfter(tx, first, Published(encodings[1..]).0, Published(encodings[1..]).1);
      }
    }
  }

  /** A use case: save the aggregate and publish its events in one scope. */
  function SaveAndPublish(u: UseCase): Prog {
    Scope(Then(if u.saveFails then SqlError else Save(u.aggregate), Publish(u.encodings)))
  }

  /** Its aggregate, whether saving it fails, and how its events encode and store. */
  datatype UseCase = UseCase(aggregate: Write, saveFails: bool, encodings: seq<Encoding<Write>>)

  function EndOf(u: UseCase): Ending {
    if u.saveFails then StatementError else Published(u.encodings).1
  }

  /** The aggregate and the events enqueued before any failure. */
  function WritesOf(u: UseCase): seq<Write> {
    if u.saveFails then [] else [u.aggregate] + Published(u.encodings).0
  }

  /** The use case joined to an open transaction. */
  lemma SaveAndPublishJoined(u: UseCase, tx: Tx)
    requires !tx.aborted
    ensures RunIn(SaveAndPublish(u), tx) == Left(tx, WritesOf(u), EndOf(u))
  {
    if u.saveFails {
      assert tx.pending + [] == tx.pending;
      assert RunIn(Then(SqlError, Publish(u.encodings)), tx) == RunIn(SqlError, tx);
    } else {
      var tx1 := Left(tx, [u.aggregate], Stored).0;
      Publishes(u.encodings, tx1);
      LeftAfter(tx, [u.aggregate], Published(u.encodings).0, Published(u.encodings).1);
      assert RunIn(Save(u.aggregate), tx) == (tx1, Returned);
      assert RunIn(Then(Save(u.aggregate), Publish(u.encodings)), tx) == RunIn(Publish(u.encodings), tx1);
    }
  }

  predicate CommitLands(fate: Fate) {
    fate == CommitOk || fate == CommitUnknown
  }

  /**
   On its own the use case saves exactly when it publishes, whatever encoders, statements and the commit do: both are
   there in full exactly when nothing failed and the commit took effect, and otherwise neither is.
   */
  lemma SaveIffPublish(u: UseCase, db: Database, fate: Fate)
    ensures var (db', out) := RunOwner(SaveAndPublish(u), db, fate);
            && db'.committed == db.committed + (if EndOf(u) == Stored && CommitLands(fate) then WritesOf(u) else [])
            && (out == Returned <==> EndOf(u) == Stored && fate == CommitOk)
    ensures EndOf(u) == Stored <==> !u.saveFails && AllGood(u.encodings)
  {
    SaveAndPublishJoined(u, Tx([], false));
    PublishesExactlyWhen(u.encodings);
    assert [] + WritesOf(u) == WritesOf(u);
    assert db.committed + [] == db.committed;
  }

  /**
   The idempotency middleware around a handler: its own transaction, the key inserted, the handler's error turned
   into a response, the outcome recorded.
   */
  function Middleware(key: Write, handler: Prog, outcome: Write): Prog {
    Then(Save(key), Then(Ignore(handler), Save(outcome)))
  }

  /** The middleware around any handler, by what the handler made of the transaction. */
  lemma MiddlewareRuns(key: Write, handler: Prog, outcome: Write)
    ensures var (tx, out) := RunIn(handler, Tx([key], false));
            RunIn(Middleware(key, handler, outcome), Tx([], false))
            == if out == Panicked then (tx, Panicked)
               else if tx.aborted then (tx, Failed)
               else (Tx(tx.pending + [outcome], false), Returned)
  {
    var (tx, out) := RunIn(handler, Tx([key], false));
    assert [] + [key] == [key];
    assert RunIn(Save(key), Tx([], false)) == (Tx([key], false), Returned);
    assert RunIn(Ignore(handler), Tx([key], false)) == (tx, if out == Failed then Returned else out);
    assert RunIn(Then(Ignore(handler), Save(outcome)), Tx([key], false))
        == if out == Panicked then (tx, out) else RunIn(Save(outcome), tx);
  }

  /**
   The middleware commits nothing at all, its key row included, exactly when the handler panicked, a statement failed
   in the transaction, or the commit did not take effect; every other handler's writes commit, whatever it answered.
   */
  lemma MiddlewareCommitsExactlyWhen(handler: Prog, key: Write, outcome: Write, db: Database, fate: Fate)
    ensures var (tx, out) := RunIn(handler, Tx([key], false));
            var db' := RunOwner(Middleware(key, handler, outcome), db, fate).0;
            db'.committed
            == db.committed + if out == Panicked || tx.aborted || !CommitLands(fate) then [] else tx.pending + [outcome]
  {
    MiddlewareRuns(key, handler, outcome);
    assert db.committed + [] == db.committed;
  }

  /**
   Under the middleware the joined use case no longer rolls back on its own error. A statement error still takes
   everything with it; after an encoder or header error the aggregate commits with the events enqueued before it,
   although the use case reported an error. So a partial use case commits exactly on such an error.
   */
  lemma SaveIffPublishUnderMiddleware(u: UseCase, key: Write, outcome: Write, db: Database, fate: Fate)
    ensures var db' := RunOwner(Middleware(key, SaveAndPublish(u), outcome), db, fate).0;
            && db'.committed == db.committed + (if EndOf(u) == StatementError || !CommitLands(fate) then []
                                                else [key] + WritesOf(u) + [outcome])
            && (db'.committed != db.committed && RunIn(SaveAndPublish(u), Tx([key], false)).1 == Failed
                <==> EndOf(u) == ProgramError && CommitLands(fate))
  {
    SaveAndPublishJoined(u, Tx([key], false));
    MiddlewareCommitsExactlyWhen(SaveAndPublish(u), key, outcome, db, fate);
    var added := [key] + WritesOf(u) + [outcome];
    assert |db.committed + added| == |db.committed| + |added|;
  }
}

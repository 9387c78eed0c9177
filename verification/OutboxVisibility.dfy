/**
 The outbox with concurrent publishers (internal/adapters/outbound/postgres/outbox_relay.go, outbox_publisher.go): ids
 come from a sequence when a row is inserted, rows become visible when their transaction commits, in any order, and the
 relay claims what it sees.

 What is left of the order is what the relay promises: rows of one key, each committed before the next is inserted.
 */
module OutboxVisibility {
  import opened OutboxRelay

  /** The visible, unpublished ids, oldest first, up to `size` of them, from id `from` on. */
  function ClaimVisible<E>(rows: seq<OutboxRow<E>>, visible: set<nat>, from: nat, size: nat): (batch: seq<nat>)
    ensures forall i :: 0 <= i < |batch| ==> from <= batch[i] < |rows|
    ensures forall i :: 0 <= i < |batch| ==> batch[i] in visible
    ensures forall i, j :: 0 <= i < j < |batch| ==> batch[i] < batch[j]
    decreases |rows| - from
  {
    if from >= |rows| || size == 0 then []
    else if rows[from].published || from !in visible then ClaimVisible(rows, visible, from + 1, size)
    else [from] + ClaimVisible(rows, visible, from + 1, size - 1)
  }

  /** An older visible, unpublished row is claimed before any younger one. */
  lemma {:induction false} OlderFirst<E>(rows: seq<OutboxRow<E>>, visible: set<nat>, from: nat, size: nat, a: nat, j: nat)
    requires from <= a < |rows| && a in visible && !rows[a].published
    requires var batch := ClaimVisible(rows, visible, from, size); j < |batch| && a < batch[j]
    ensures a in ClaimVisible(rows, visible, from, size)[..j]
    decreases |rows| - from
  {
    var batch := ClaimVisible(rows, visible, from, size);
    if rows[from].published || from !in visible {
      OlderFirst(rows, visible, from + 1, size, a, j);
    } else if a == from {
      assert batch[0] == a;
      assert j > 0;
      assert batch[..j][0] == a;
    } else {
      assert j > 0;
      OlderFirst(rows, visible, from + 1, size - 1, a, j - 1);
      assert batch[..j] == [from] + ClaimVisible(rows, visible, from + 1, size - 1)[..j - 1];
    }
  }

  datatype Move<!E> =
    | Insert(message: E)      // an id is taken
    | Commit(id: nat)         // the row's transaction commits: the row becomes visible
    | Relay(env: Env)

  datatype State<E> = State(rows: seq<OutboxRow<E>>, visible: set<nat>, log: seq<nat>)

  function Do<E>(s: State<E>, act: Move<E>, size: nat): State<E> {
    match act
    case Insert(message) => s.(rows := s.rows + Fresh([message]))
    case Commit(id) => if id < |s.rows| then s.(visible := s.visible + {id}) else s
    case Relay(env) =>
      var (rows, log) := PassOver(s.rows, s.log, if env.claimFails then [] else ClaimVisible(s.rows, s.visible, 0, size), env);
      State(rows, s.visible, log)
  }

  function Run<E>(acts: seq<Move<E>>, size: nat): State<E> {
    if acts == [] then State([], {}, []) else Do(Run(acts[..|acts| - 1], size), acts[|acts| - 1], size)
  }

  /** Every published row has been sent, and only visible rows have been. */
  ghost predicate SentInv<E>(s: State<E>) {
    && (forall i :: 0 <= i < |s.rows| && s.rows[i].published ==> i in s.log)
    && (forall i :: i in s.log ==> i in s.visible && i < |s.rows|)
    && (forall i :: i in s.visible ==> i < |s.rows|)
  }

  /** Whenever b is in the log, a is there before it. */
  predicate Before(log: seq<nat>, a: nat, b: nat) {
    forall j :: 0 <= j < |log| && log[j] == b ==> a in log[..j]
  }

  lemma BeforeSnoc(log: seq<nat>, e: nat, a: nat, b: nat)
    requires Before(log, a, b) && (e == b ==> a in log)
    ensures Before(log + [e], a, b)
  {
    var longer := log + [e];
    forall j | 0 <= j < |longer| && longer[j] == b ensures a in longer[..j] {
      if j < |log| {
        assert longer[..j] == log[..j];
      } else {
        assert longer[..j] == log;
      }
    }
  }

  /** The sending loop sends only its batch, marks only what it has sent, and keeps a before b when a comes first in the batch too. */
  lemma {:induction false} SendAllSends<E>(p: Progress<E>, batch: seq<nat>, fate: nat -> RowFate)
    requires forall i :: 0 <= i < |batch| ==> batch[i] < |p.table|
    requires forall i :: 0 <= i < |p.table| && p.table[i].published ==> i in p.log
    ensures var (q, ending) := SendAll(p, batch, fate);
            && |q.table| == |p.table|
            && (forall i :: 0 <= i < |q.table| && q.table[i].published ==> i in q.log)
            && (forall i :: i in q.log ==> i in p.log || i in batch)
            && (forall i :: i in p.log ==> i in q.log)
    decreases |batch|
  {
    if batch != [] && fate(batch[0]) == Delivered {
      var id := batch[0];
      var p1 := Progress(p.table[id := Marked(p.table[id])], p.log + [id], p.published + 1);
      SendAllSends(p1, batch[1..], fate);
      assert batch == [id] + batch[1..];
    }
  }

  lemma {:induction false} SendAllOrder<E>(p: Progress<E>, batch: seq<nat>, fate: nat -> RowFate, a: nat, b: nat)
    requires forall i :: 0 <= i < |batch| ==> batch[i] < |p.table|
    requires Before(p.log, a, b) && (a in p.log || Before(batch, a, b))
    ensures Before(SendAll(p, batch, fate).0.log, a, b)
    decreases |batch|
  {
    if batch != [] {
      var id := batch[0];
      assert batch[..0] == [];
      BeforeSnoc(p.log, id, a, b);
      if fate(id) == Delivered {
        if a !in p.log && id != a {
          BeforeTail(batch, a, b);
        }
        SendAllOrder(Progress(p.table[id := Marked(p.table[id])], p.log + [id], p.published + 1), batch[1..], fate, a, b);
      }
    }
  }

  lemma BeforeTail(batch: seq<nat>, a: nat, b: nat)
    requires batch != [] && Before(batch, a, b) && batch[0] != a
    ensures Before(batch[1..], a, b)
  {
    var rest := batch[1..];
    forall j | 0 <= j < |rest| && rest[j] == b ensures a in rest[..j] {
      assert batch[j + 1] == b;
      assert batch[..j + 1] == [batch[0]] + rest[..j];
    }
  }

  lemma PassSends<E>(rows: seq<OutboxRow<E>>, log: seq<nat>, batch: seq<nat>, env: Env)
    requires forall i :: 0 <= i < |batch| ==> batch[i] < |rows|
    requires forall i :: 0 <= i < |rows| && rows[i].published ==> i in log
    ensures var (rows', log') := PassOver(rows, log, batch, env);
            && |rows'| == |rows|
            && (forall i :: 0 <= i < |rows'| && rows'[i].published ==> i in log')
            && (forall i :: i in log' ==> i in log || i in batch)
            && (forall i :: i in log ==> i in log')
  {
    SendAllSends(Progress(rows, log, 0), batch, env.fate);
    var (p, ending) := SendAll(Progress(rows, log, 0), batch, env.fate);
    var (rows', log') := PassOver(rows, log, batch, env);
    assert |p.table| == |rows| && log' == p.log;
    assert ending.Failed? && ending.id < |p.table| ==> |p.table[ending.id := Noted(p.table[ending.id])]| == |p.table|;
  }

  lemma PassKeepsSent<E>(s: State<E>, env: Env, size: nat)
    requires SentInv(s)
    ensures SentInv(Do(s, Relay(env), size))
    ensures forall i :: i in s.log ==> i in Do(s, Relay(env), size).log
  {
    var batch := if env.claimFails then [] else ClaimVisible(s.rows, s.visible, 0, size);
    PassSends(s.rows, s.log, batch, env);
    assert forall i :: i in batch ==> i in s.visible && i < |s.rows|;
  }

  lemma StepKeepsSent<E>(s: State<E>, act: Move<E>, size: nat)
    requires SentInv(s)
    ensures SentInv(Do(s, act, size))
    ensures s.visible <= Do(s, act, size).visible && forall i :: i in s.log ==> i in Do(s, act, size).log
  {
    if act.Relay? {
      PassKeepsSent(s, act.env, size);
    }
  }

  lemma {:induction false} RunKeepsSent<E>(acts: seq<Move<E>>, size: nat)
    ensures SentInv(Run(acts, size))
  {
    if acts != [] {
      RunKeepsSent(acts[..|acts| - 1], size);
      StepKeepsSent(Run(acts[..|acts| - 1], size), acts[|acts| - 1], size);
    }
  }

  /** A pass over a state where the older row is visible keeps it before the younger. */
  lemma PassKeepsOrder<E>(s: State<E>, env: Env, size: nat, a: nat, b: nat)
    requires SentInv(s) && a in s.visible && a < b && Before(s.log, a, b)
    ensures Before(Do(s, Relay(env), size).log, a, b)
  {
    var batch := if env.claimFails then [] else ClaimVisible(s.rows, s.visible, 0, size);
    if a !in s.log {
      assert !s.rows[a].published;
      forall j | 0 <= j < |batch| && batch[j] == b ensures a in batch[..j] {
        OlderFirst(s.rows, s.visible, 0, size, a, j);
      }
    }
    SendAllOrder(Progress(s.rows, s.log, 0), batch, env.fate, a, b);
  }

  /**
   Two rows, the older visible while the younger is not: whatever the relay's passes meet from then on, the sink sees the
   older one first.
   */
  lemma {:induction false} OlderSeenFirst<E>(before: seq<Move<E>>, after: seq<Move<E>>, size: nat, a: nat, b: nat)
    requires a < b && a in Run(before, size).visible && b !in Run(before, size).visible
    ensures var s := Run(before + after, size); Before(s.log, a, b) && a in s.visible
    decreases |after|
  {
    RunKeepsSent(before, size);
    if after == [] {
      assert before + after == before;
    } else {
      var init, last := after[..|after| - 1], after[|after| - 1];
      assert (before + after)[..|before + after| - 1] == before + init;
      OlderSeenFirst(before, init, size, a, b);
      RunKeepsSent(before + init, size);
      StepKeepsSent(Run(before + init, size), last, size);
      if last.Relay? {
        PassKeepsOrder(Run(before + init, size), last.env, size, a, b);
      }
    }
  }

  /** In particular a row committed before the next one of its key is inserted is seen first, whatever else commits when. */
  lemma KeyOrder<E>(before: seq<Move<E>>, message: E, after: seq<Move<E>>, size: nat, a: nat)
    requires a in Run(before, size).visible
    ensures var b := |Run(before, size).rows|;
            b < |Run(before + [Insert(message)], size).rows|
            && Before(Run(before + ([Insert(message)] + after), size).log, a, b)
  {
    RunKeepsSent(before, size);
    assert (before + [Insert(message)])[..|before|] == before;
    OlderSeenFirst(before, [Insert(message)] + after, size, a, |Run(before, size).rows|);
  }

  /** Without that the ids decide nothing: a younger row that commits first can be seen first. */
  lemma LateCommitOvertaken<E>(m: E, size: nat, env: Env) returns (acts: seq<Move<E>>)
    requires size > 0 && Clean(env)
    ensures Run(acts, size).visible == {0, 1} && !Before(Run(acts, size).log, 0, 1)
  {
    var a1 := [Insert(m)];
    var a2 := a1 + [Insert(m)];
    var a3 := a2 + [Commit(1)];
    var a4 := a3 + [Relay(env)];
    acts := a4 + [Commit(0)];
    assert a1[..0] == [] && a2[..1] == a1 && a3[..2] == a2 && a4[..3] == a3 && acts[..4] == a4;
    var row := OutboxRow(m, false, 0, false);
    assert Run(a1, size).rows == [row];
    assert Run(a2, size).rows == [row, row] && Run(a2, size).visible == {} && Run(a2, size).log == [];
    var s := Run(a3, size);
    assert s == State([row, row], {1}, []);
    assert ClaimVisible(s.rows, s.visible, 2, size - 1) == [];
    assert ClaimVisible(s.rows, s.visible, 1, size) == [1];
    assert ClaimVisible(s.rows, s.visible, 0, size) == [1];
    assert SendAll(Progress(s.rows, [], 0), [1], env.fate).0.log == [1];
    assert Run(acts, size).log == [1];
    assert [1][..0] == [];
  }
}

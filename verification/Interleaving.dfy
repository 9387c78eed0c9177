/**
 Event streams as sequences: folding a stream into a state, the first occurrences of a stream with redeliveries,
 and the order of a stream that was split over partitions.
 */
module Interleaving {

  function Fold<S, E>(step: (S, E) -> S, s: S, es: seq<E>): S
    decreases |es|
  {
    if es == [] then s else Fold(step, step(s, es[0]), es[1..])
  }

  lemma {:induction false} FoldAppend<S, E>(step: (S, E) -> S, s: S, xs: seq<E>, ys: seq<E>)
    ensures Fold(step, s, xs + ys) == Fold(step, Fold(step, s, xs), ys)
    decreases |xs|
  {
    if xs == [] {
      assert xs + ys == ys;
    } else {
      FoldAppend(step, step(s, xs[0]), xs[1..], ys);
      assert (xs + ys)[1..] == xs[1..] + ys;
    }
  }

  lemma FoldSnoc<S, E>(step: (S, E) -> S, s: S, xs: seq<E>, e: E)
    ensures Fold(step, s, xs + [e]) == step(Fold(step, s, xs), e)
  {
    FoldAppend(step, s, xs, [e]);
    assert [e][1..] == [];
  }

  lemma FoldLast<S, E>(step: (S, E) -> S, s: S, es: seq<E>)
    requires es != []
    ensures Fold(step, s, es) == step(Fold(step, s, es[..|es| - 1]), es[|es| - 1])
  {
    assert es == es[..|es| - 1] + [es[|es| - 1]];
    FoldSnoc(step, s, es[..|es| - 1], es[|es| - 1]);
  }

  // ---- Partitions ----

  /** The events of one partition, in stream order. */
  function Project<E>(part: E -> nat, es: seq<E>, p: nat): seq<E>
    decreases |es|
  {
    if es == [] then []
    else (if part(es[0]) == p then [es[0]] else []) + Project(part, es[1..], p)
  }

  /** Events of the stream that lie in different partitions may be applied in either order. */
  ghost predicate PartitionsCommute<S(!new), E(!new)>(step: (S, E) -> S, part: E -> nat, es: seq<E>) {
    forall s, a, b :: a in es && b in es && part(a) != part(b) ==> step(step(s, a), b) == step(step(s, b), a)
  }

  lemma {:induction false} ProjectAppend<E>(part: E -> nat, xs: seq<E>, ys: seq<E>, p: nat)
    ensures Project(part, xs + ys, p) == Project(part, xs, p) + Project(part, ys, p)
    decreases |xs|
  {
    if xs == [] {
      assert xs + ys == ys;
    } else {
      ProjectAppend(part, xs[1..], ys, p);
      var first := if part(xs[0]) == p then [xs[0]] else [];
      assert (xs + ys)[0] == xs[0] && (xs + ys)[1..] == xs[1..] + ys;
      assert Project(part, xs + ys, p) == first + Project(part, (xs + ys)[1..], p);
      assert first + (Project(part, xs[1..], p) + Project(part, ys, p)) == first + Project(part, xs[1..], p) + Project(part, ys, p);
    }
  }

  lemma ProjectSnoc<E>(part: E -> nat, es: seq<E>, e: E, p: nat)
    ensures Project(part, es + [e], p) == if part(e) == p then Project(part, es, p) + [e] else Project(part, es, p)
  {
    ProjectAppend(part, es, [e], p);
    assert [e][1..] == [];
  }

  lemma {:induction false} ProjectMembers<E>(part: E -> nat, es: seq<E>, p: nat)
    ensures forall e :: e in Project(part, es, p) <==> e in es && part(e) == p
    decreases |es|
  {
    if es != [] {
      ProjectMembers(part, es[1..], p);
      assert forall e :: e in es <==> e == es[0] || e in es[1..];
    }
  }

  /** An event moves to the front past events of other partitions. */
  lemma {:induction false} MoveToFront<S(!new), E(!new)>(step: (S, E) -> S, part: E -> nat, s: S, before: seq<E>, a: E, after: seq<E>)
    requires PartitionsCommute(step, part, before + [a] + after)
    requires forall e :: e in before ==> part(e) != part(a)
    ensures Fold(step, s, before + [a] + after) == Fold(step, step(s, a), before + after)
    decreases |before|
  {
    var all := before + [a] + after;
    if before == [] {
      assert all[0] == a && all[1..] == after && before + after == after;
    } else {
      var b, rest := before[0], before[1..];
      assert b in all && a in all;
      assert all[1..] == rest + [a] + after;
      assert (before + after)[1..] == rest + after;
      assert PartitionsCommute(step, part, rest + [a] + after) by {
        assert forall e :: e in rest + [a] + after ==> e in all;
      }
      MoveToFront(step, part, step(s, b), rest, a, after);
      assert step(step(s, b), a) == step(step(s, a), b);
    }
  }

  lemma {:induction false} FirstIndex<E>(part: E -> nat, es: seq<E>, p: nat) returns (k: nat)
    requires Project(part, es, p) != []
    ensures k < |es| && part(es[k]) == p
    ensures forall e :: e in es[..k] ==> part(e) != p
    decreases |es|
  {
    if part(es[0]) == p {
      k := 0;
    } else {
      var j := FirstIndex(part, es[1..], p);
      k := j + 1;
      assert es[..k] == [es[0]] + es[1..][..j];
    }
  }

  lemma {:induction false} ProjectNone<E>(part: E -> nat, es: seq<E>, p: nat)
    requires forall e :: e in es ==> part(e) != p
    ensures Project(part, es, p) == []
    decreases |es|
  {
    if es != [] {
      assert es[0] in es;
      ProjectNone(part, es[1..], p);
    }
  }

  lemma SomeMember<E>(s: seq<E>)
    ensures s != [] ==> exists e :: e in s
  {
    if s != [] {
      assert s[0] in s;
    }
  }

  lemma ProjectSplit<E>(part: E -> nat, before: seq<E>, a: E, after: seq<E>, q: nat)
    ensures Project(part, before + [a] + after, q) ==
            Project(part, before, q) + (if part(a) == q then [a] else []) + Project(part, after, q)
    ensures Project(part, before + after, q) == Project(part, before, q) + Project(part, after, q)
  {
    ProjectAppend(part, before + [a], after, q);
    ProjectAppend(part, before, [a], q);
    ProjectAppend(part, before, after, q);
    assert [a][1..] == [];
  }

  /** The first event of a partition in the stream, taken out of the stream. */
  lemma FirstOf<E>(part: E -> nat, es: seq<E>, p: nat) returns (before: seq<E>, a: E, after: seq<E>)
    requires Project(part, es, p) != []
    ensures es == before + [a] + after && a == Project(part, es, p)[0] && part(a) == p
    ensures forall e :: e in before ==> part(e) != p
    ensures forall q :: Project(part, before + after, q) == if q == p then Project(part, es, q)[1..] else Project(part, es, q)
  {
    var k := FirstIndex(part, es, p);
    before, a, after := es[..k], es[k], es[k + 1..];
    assert es == before + [a] + after;
    ProjectNone(part, before, p);
    ProjectSplit(part, before, a, after, p);
    forall q ensures Project(part, before + after, q) == if q == p then Project(part, es, q)[1..] else Project(part, es, q) {
      ProjectSplit(part, before, a, after, q);
    }
  }

  /**
   Two merges of the same partitions fold to the same state, whatever the order in which the partitions were read:
   each partition's own order is all that counts when events of different partitions commute.
   */
  lemma {:induction false} MergeOrderIsIrrelevant<S(!new), E(!new)>(step: (S, E) -> S, part: E -> nat, s: S, xs: seq<E>, ys: seq<E>)
    requires PartitionsCommute(step, part, xs)
    requires forall p :: Project(part, xs, p) == Project(part, ys, p)
    ensures Fold(step, s, xs) == Fold(step, s, ys)
    decreases |xs|
  {
    if xs == [] {
      SameMembers(part, xs, ys);
      SomeMember(ys);
    } else {
      var a, p := xs[0], part(xs[0]);
      assert Project(part, ys, p) == Project(part, xs, p) == [a] + Project(part, xs[1..], p);
      var before, first, after := FirstOf(part, ys, p);
      assert first == a;
      SameMembers(part, xs, ys);
      MoveToFront(step, part, s, before, a, after);
      forall q ensures Project(part, xs[1..], q) == Project(part, before + after, q) {
        assert Project(part, xs, q) == Project(part, ys, q);
      }
      assert forall e :: e in xs[1..] ==> e in xs;
      MergeOrderIsIrrelevant(step, part, step(s, a), xs[1..], before + after);
    }
  }

  lemma SameMembers<E>(part: E -> nat, xs: seq<E>, ys: seq<E>)
    requires forall p :: Project(part, xs, p) == Project(part, ys, p)
    ensures forall e :: e in xs <==> e in ys
  {
    forall e | e in xs || e in ys ensures e in xs && e in ys {
      ProjectMembers(part, xs, part(e));
      ProjectMembers(part, ys, part(e));
      assert Project(part, xs, part(e)) == Project(part, ys, part(e));
    }
  }

  // ---- Redeliveries ----

  /** The first occurrence of each element, in order. */
  function FirstOccurrences<E(==, !new)>(es: seq<E>): (r: seq<E>)
    ensures forall e :: e in r <==> e in es
    decreases |es|
  {
    if es == [] then []
    else
      var init, last := es[..|es| - 1], es[|es| - 1];
      assert es == init + [last];
      if last in init then FirstOccurrences(init) else FirstOccurrences(init) + [last]
  }

  lemma FirstOccurrencesSnoc<E(!new)>(es: seq<E>, e: E)
    ensures FirstOccurrences(es + [e]) == if e in es then FirstOccurrences(es) else FirstOccurrences(es) + [e]
  {
    assert (es + [e])[..|es|] == es;
  }

  /** First occurrences may be taken before or after looking at one partition. */
  lemma {:induction false} ProjectFirst<E(!new)>(part: E -> nat, es: seq<E>, p: nat)
    ensures Project(part, FirstOccurrences(es), p) == FirstOccurrences(Project(part, es, p))
    decreases |es|
  {
    if es != [] {
      var init, last := es[..|es| - 1], es[|es| - 1];
      assert es == init + [last];
      ProjectFirst(part, init, p);
      FirstOccurrencesSnoc(init, last);
      ProjectSnoc(part, init, last, p);
      ProjectSnoc(part, FirstOccurrences(init), last, p);
      FirstOccurrencesSnoc(Project(part, init, p), last);
      ProjectMembers(part, init, p);
    }
  }

  /** A prefix has the first of the first occurrences. */
  lemma {:induction false} FirstOfPrefix<E(!new)>(es: seq<E>, m: nat)
    requires m <= |es|
    ensures FirstOccurrences(es[..m]) <= FirstOccurrences(es)
    decreases |es|
  {
    if m == |es| {
      assert es[..m] == es;
    } else {
      var init, last := es[..|es| - 1], es[|es| - 1];
      assert es == init + [last] && init[..m] == es[..m];
      FirstOfPrefix(init, m);
      FirstOccurrencesSnoc(init, last);
    }
  }

  // ---- Increasing lists of numbers ----

  predicate Increasing(ids: seq<nat>) {
    forall i, j :: 0 <= i < j < |ids| ==> ids[i] < ids[j]
  }

  predicate Within(ids: seq<nat>, n: nat) {
    forall i :: 0 <= i < |ids| ==> ids[i] < n
  }

  lemma IncreasingSnoc(ids: seq<nat>, e: nat)
    requires Increasing(ids) && Within(ids, e)
    ensures Increasing(ids + [e])
  {
  }

  lemma IncreasingLast(ids: seq<nat>)
    requires Increasing(ids) && ids != []
    ensures Increasing(ids[..|ids| - 1]) && Within(ids[..|ids| - 1], ids[|ids| - 1])
  {
  }

  lemma WithinMembers(ids: seq<nat>, n: nat)
    ensures Within(ids, n) <==> forall i :: i in ids ==> i < n
  {
    if forall i :: i in ids ==> i < n {
      assert forall i :: 0 <= i < |ids| ==> ids[i] in ids;
    }
  }

  /** Only one increasing list has given members. */
  lemma {:induction false} SameIncreasing(xs: seq<nat>, ys: seq<nat>)
    requires Increasing(xs) && Increasing(ys) && forall i :: i in xs <==> i in ys
    ensures xs == ys
    decreases |xs|
  {
    if xs == [] || ys == [] {
      SomeMember(xs);
      SomeMember(ys);
    } else {
      var x, y := xs[|xs| - 1], ys[|ys| - 1];
      var xs0, ys0 := xs[..|xs| - 1], ys[..|ys| - 1];
      assert xs == xs0 + [x] && ys == ys0 + [y];
      IncreasingLast(xs);
      IncreasingLast(ys);
      WithinMembers(xs0, x);
      WithinMembers(ys0, y);
      assert x in ys && y in xs;
      forall i ensures i in xs0 <==> i in ys0 {
        assert i in xs <==> i in ys;
      }
      SameIncreasing(xs0, ys0);
    }
  }

  lemma {:induction false} ProjectIncreasing(part: nat -> nat, ids: seq<nat>, p: nat)
    requires Increasing(ids)
    ensures Increasing(Project(part, ids, p))
    decreases |ids|
  {
    if ids != [] {
      var init, last := ids[..|ids| - 1], ids[|ids| - 1];
      assert ids == init + [last];
      IncreasingLast(ids);
      ProjectIncreasing(part, init, p);
      ProjectSnoc(part, init, last, p);
      ProjectMembers(part, init, p);
      WithinMembers(init, last);
      WithinMembers(Project(part, init, p), last);
      if part(last) == p {
        IncreasingSnoc(Project(part, init, p), last);
      }
    }
  }

  /** The numbers below n that are in the list, in order. */
  function Among(n: nat, ids: seq<nat>): (r: seq<nat>)
    ensures Within(r, n) && forall i :: i in r <==> i < n && i in ids
  {
    if n == 0 then [] else if n - 1 in ids then Among(n - 1, ids) + [n - 1] else Among(n - 1, ids)
  }

  lemma {:induction false} AmongIncreases(n: nat, ids: seq<nat>)
    ensures Increasing(Among(n, ids))
  {
    if n > 0 {
      AmongIncreases(n - 1, ids);
      if n - 1 in ids {
        IncreasingSnoc(Among(n - 1, ids), n - 1);
      }
    }
  }

  /** The first n numbers in order. */
  function UpTo(n: nat): (r: seq<nat>)
    ensures |r| == n && forall i :: 0 <= i < n ==> r[i] == i
  {
    seq(n, i requires 0 <= i < n => i)
  }

  lemma UpToMembers(n: nat, i: nat)
    ensures i in UpTo(n) <==> i < n
  {
    if i < n {
      assert UpTo(n)[i] == i;
    }
  }

  lemma UpToSnoc(n: nat)
    ensures UpTo(n + 1) == UpTo(n) + [n]
  {
  }

  /** A new element at the end of an in-order stream is the next number. */
  lemma NewIsNext(es: seq<nat>, e: nat, k: nat)
    requires FirstOccurrences(es + [e]) == UpTo(k) && e !in es
    ensures k > 0 && e == k - 1 && FirstOccurrences(es) == UpTo(k - 1)
  {
    FirstOccurrencesSnoc(es, e);
    var f := FirstOccurrences(es);
    assert |f + [e]| == k;
    assert f == (f + [e])[..k - 1] == UpTo(k)[..k - 1];
    assert UpTo(k)[..k - 1] == UpTo(k - 1);
    assert (f + [e])[k - 1] == e;
  }
}

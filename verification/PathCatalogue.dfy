/**
 The process-path catalogue (internal/domain/pathcatalog/path_definition.go): the longest declared prefix that matches
 a path id, whatever the order of the declarations.

 A string is its bytes, and `lower` is whatever lower-casing the platform has: nothing is assumed of it.
 */
module PathCatalogue {
  import opened Prelude

  datatype PathDefinition = PathDefinition(
    id: string, matchPrefix: string, direct: bool, requiredCapabilities: seq<string>, destinationRole: string)

  type Lower = string -> string

  /** An id, already folded, is of the prefix's family: the prefix itself, or the prefix, a dash, and anything. */
  predicate MatchesPrefix(id: string, prefix: string) {
    id == prefix || prefix + "-" <= id
  }

  predicate Matches(lower: Lower, d: PathDefinition, id: string) {
    lower(d.matchPrefix) != "" && MatchesPrefix(lower(id), lower(d.matchPrefix))
  }

  /** An answer: a declared, matching definition, and none matches with a longer prefix. */
  predicate IsAnswer(lower: Lower, defs: seq<PathDefinition>, id: string, d: PathDefinition) {
    && d in defs && Matches(lower, d, id)
    && forall e :: e in defs && Matches(lower, e, id) ==> |lower(e.matchPrefix)| <= |lower(d.matchPrefix)|
  }

  /** The scan of the declarations, the last one considered last. */
  function LookupOf(lower: Lower, defs: seq<PathDefinition>, id: string): Option<PathDefinition> {
    if defs == [] then None
    else
      var best := LookupOf(lower, defs[..|defs| - 1], id);
      var d := defs[|defs| - 1];
      if Matches(lower, d, id) && (best.None? || |lower(d.matchPrefix)| > |lower(best.value.matchPrefix)|) then Some(d) else best
  }

  class Catalogue {
    const defs: seq<PathDefinition>
    const lower: Lower

    constructor (defs: seq<PathDefinition>, lower: Lower)
      ensures this.defs == defs && this.lower == lower
    {
      this.defs, this.lower := defs, lower;
    }

    method Lookup(id: string) returns (r: Option<PathDefinition>)
      ensures r == LookupOf(lower, defs, id)
    {
      var folded := lower(id);
      var best: Option<PathDefinition> := None;
      var bestLen := -1;
      for i := 0 to |defs|
        invariant best == LookupOf(lower, defs[..i], id)
        invariant bestLen == if best.None? then -1 else |lower(best.value.matchPrefix)|
      {
        assert defs[..i + 1][..i] == defs[..i];
        var prefix := lower(defs[i].matchPrefix);
        if prefix == "" {
          continue;
        }
        if !MatchesPrefix(folded, prefix) {
          continue;
        }
        if |prefix| > bestLen {
          best, bestLen := Some(defs[i]), |prefix|;
        }
      }
      assert defs[..|defs|] == defs;
      r := best;
    }
  }

  /** A lookup fails exactly when no declaration matches, and otherwise gives an answer. */
  lemma {:induction false} LookupAnswers(lower: Lower, defs: seq<PathDefinition>, id: string)
    ensures LookupOf(lower, defs, id).None? <==> forall d :: d in defs ==> !Matches(lower, d, id)
    ensures LookupOf(lower, defs, id).Some? ==> IsAnswer(lower, defs, id, LookupOf(lower, defs, id).value)
  {
    if defs != [] {
      var front, last := defs[..|defs| - 1], defs[|defs| - 1];
      LookupAnswers(lower, front, id);
      assert defs == front + [last];
      assert forall d :: d in defs <==> d in front || d == last;
    }
  }

  /** Among equally long answers the first declared wins. */
  lemma {:induction false} FirstAnswerWins(lower: Lower, defs: seq<PathDefinition>, id: string)
    requires defs != [] && IsAnswer(lower, defs, id, defs[0])
    ensures LookupOf(lower, defs, id) == Some(defs[0])
  {
    if |defs| > 1 {
      var front, last := defs[..|defs| - 1], defs[|defs| - 1];
      assert forall e :: e in front ==> e in defs;
      assert front[0] in front;
      FirstAnswerWins(lower, front, id);
      assert last in defs;
    } else {
      assert defs[..0] == [];
    }
  }

  predicate Permutes(a: seq<PathDefinition>, b: seq<PathDefinition>) {
    multiset(a) == multiset(b)
  }

  lemma PermutationHasSameMembers(a: seq<PathDefinition>, b: seq<PathDefinition>)
    requires Permutes(a, b)
    ensures forall d :: d in a <==> d in b
  {
    assert forall d :: (d in a <==> d in multiset(a)) && (d in b <==> d in multiset(b));
  }

  /** At most one definition is an answer. */
  ghost predicate Unambiguous(lower: Lower, defs: seq<PathDefinition>, id: string) {
    forall d, e :: IsAnswer(lower, defs, id, d) && IsAnswer(lower, defs, id, e) ==> d == e
  }

  ghost predicate OrderFree(lower: Lower, defs: seq<PathDefinition>, id: string) {
    forall a :: Permutes(a, defs) ==> LookupOf(lower, a, id) == LookupOf(lower, defs, id)
  }

  /** The declarations with the k-th moved to the front. */
  function Fronted(defs: seq<PathDefinition>, k: nat): seq<PathDefinition>
    requires k < |defs|
  {
    [defs[k]] + defs[..k] + defs[k + 1..]
  }

  lemma FrontedPermutes(defs: seq<PathDefinition>, k: nat)
    requires k < |defs|
    ensures Permutes(Fronted(defs, k), defs)
  {
    assert defs == defs[..k] + [defs[k]] + defs[k + 1..];
  }

  /** A declared answer can be made the lookup's result by declaring it first. */
  lemma AnyAnswerCanWin(lower: Lower, defs: seq<PathDefinition>, id: string, d: PathDefinition) returns (a: seq<PathDefinition>)
    requires IsAnswer(lower, defs, id, d)
    ensures Permutes(a, defs) && LookupOf(lower, a, id) == Some(d)
  {
    var k :| 0 <= k < |defs| && defs[k] == d;
    a := Fronted(defs, k);
    FrontedPermutes(defs, k);
    PermutationHasSameMembers(a, defs);
    FirstAnswerWins(lower, a, id);
  }

  /** The order of the declarations does not matter exactly when at most one of them is an answer. */
  lemma OrderFreeExactlyWhenUnambiguous(lower: Lower, defs: seq<PathDefinition>, id: string)
    ensures OrderFree(lower, defs, id) <==> Unambiguous(lower, defs, id)
  {
    if Unambiguous(lower, defs, id) {
      LookupAnswers(lower, defs, id);
      forall a | Permutes(a, defs) ensures LookupOf(lower, a, id) == LookupOf(lower, defs, id) {
        PermutationHasSameMembers(a, defs);
        LookupAnswers(lower, a, id);
        if LookupOf(lower, a, id).Some? {
          assert IsAnswer(lower, defs, id, LookupOf(lower, a, id).value);
        }
      }
    }
    if OrderFree(lower, defs, id) {
      forall d, e | IsAnswer(lower, defs, id, d) && IsAnswer(lower, defs, id, e) ensures d == e {
        var a := AnyAnswerCanWin(lower, defs, id, d);
        var b := AnyAnswerCanWin(lower, defs, id, e);
      }
    }
  }

  /** Equally long prefixes that match one id are, once folded, the same string. */
  lemma EqualLengthMatchesAreEqual(id: string, p: string, q: string)
    requires MatchesPrefix(id, p) && MatchesPrefix(id, q) && |p| == |q|
    ensures p == q
  {
    assert p == id[..|p|];
    assert q == id[..|q|];
  }

  predicate DistinctPrefixes(lower: Lower, defs: seq<PathDefinition>) {
    forall d, e :: d in defs && e in defs && lower(d.matchPrefix) == lower(e.matchPrefix) ==> d == e
  }

  /** So definitions with distinct folded prefixes answer every id the same in every order. */
  lemma DistinctPrefixesAreOrderFree(lower: Lower, defs: seq<PathDefinition>, id: string)
    requires DistinctPrefixes(lower, defs)
    ensures OrderFree(lower, defs, id)
  {
    forall d, e | IsAnswer(lower, defs, id, d) && IsAnswer(lower, defs, id, e) ensures d == e {
      EqualLengthMatchesAreEqual(lower(id), lower(d.matchPrefix), lower(e.matchPrefix));
    }
    OrderFreeExactlyWhenUnambiguous(lower, defs, id);
  }

  /** The family of a prefix: the prefix itself, and whatever follows it after a dash. */
  lemma FamilyExactlyWhen(id: string, prefix: string)
    ensures MatchesPrefix(id, prefix) <==> id == prefix || exists rest: string :: id == prefix + "-" + rest
  {
    if prefix + "-" <= id {
      assert id == prefix + "-" + id[|prefix| + 1..];
    }
  }

  /** The separator is needed: a prefix does not match an id that only continues it. */
  lemma BareContinuationDoesNotMatch(prefix: string, c: char, rest: string)
    requires c != '-'
    ensures !MatchesPrefix(prefix + [c] + rest, prefix)
  {
    var id := prefix + [c] + rest;
    assert id[|prefix|] == c;
    assert (prefix + "-")[|prefix|] == '-';
  }
}

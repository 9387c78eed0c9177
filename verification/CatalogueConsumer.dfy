/**
 The event-sourced catalogue (internal/adapters/outbound/kafkacatalog/consumer.go): a cache rebuilt by replaying the
 topic, and a readiness flag raised when every partition has been read up to its startup watermark.
 */
module CatalogueReplay {
  import opened Prelude
  import opened Interleaving
  import opened PathCatalogue

  type Partition = nat
  // Keyed by the upper-cased path id.
  type Paths = map<string, PathDefinition>
  // Per partition, the offset the next message would get, as read at startup.
  type Watermarks = map<Partition, nat>

  datatype Payload =
    | Upsert(def: PathDefinition)      // ProcessPathCreated, ProcessPathUpdated
    | Deactivated(id: string)
    | OtherType
    | Undecodable

  datatype Message = Message(part: Partition, offset: nat, payload: Payload)

  // Whatever upper-casing the platform has: nothing is assumed of it.
  type Upper = string -> string

  /** The cache entry a message writes. */
  function KeyOf(upper: Upper, payload: Payload): Option<string> {
    match payload
    case Upsert(def) => Some(upper(def.id))
    case Deactivated(id) => Some(upper(id))
    case _ => None
  }

  function ApplyMsg(upper: Upper, paths: Paths, m: Message): Paths {
    match m.payload
    case Upsert(def) => paths[upper(def.id) := def]
    case Deactivated(id) => paths - {upper(id)}
    case _ => paths
  }

  function Applier(upper: Upper): (Paths, Message) -> Paths {
    (paths: Paths, m: Message) => ApplyMsg(upper, paths, m)
  }

  predicate Reaches(m: Message, p: Partition, watermark: nat) {
    m.part == p && m.offset + 1 >= watermark
  }

  predicate Caught(consumed: seq<Message>, p: Partition, watermark: nat) {
    exists m :: m in consumed && Reaches(m, p, watermark)
  }

  /** The partitions still behind their watermark. */
  function Behind(target: Watermarks, consumed: seq<Message>): Watermarks {
    map p | p in target && !Caught(consumed, p, target[p]) :: target[p]
  }

  class Consumer {
    const lower: Lower
    const upper: Upper
    var paths: Paths
    var target: Watermarks
    var ready: bool
    // How often readyCh was closed; closing it twice panics.
    var closings: nat
    ghost var startup: Watermarks
    ghost var consumed: seq<Message>

    /** The cache is the fold of what was consumed, and the flag tells whether every partition has caught up. */
    ghost predicate Valid()
      reads this
    {
      && paths == Fold(Applier(upper), map[], consumed)
      && target == Behind(startup, consumed)
      && ready == (target == map[])
      && closings == (if ready then 1 else 0)
    }

    constructor (target: Watermarks, lower: Lower, upper: Upper)
      ensures Valid() && startup == target && consumed == [] && this.lower == lower && this.upper == upper
    {
      this.lower, this.upper := lower, upper;
      paths, this.target, ready, closings := map[], target, false, 0;
      startup, consumed := target, [];
      new;
      assert Behind(target, []) == target;
      if |target| == 0 {
        MarkReady();
      }
    }

    method MarkReady()
      modifies this`ready, this`closings
      ensures ready
      ensures closings == old(closings) + (if old(ready) then 0 else 1)
    {
      var alreadyReady := ready;
      ready := true;
      if !alreadyReady {
        closings := closings + 1;
      }
    }

    method ApplyUpsert(def: PathDefinition)
      modifies this`paths
      ensures paths == old(paths)[upper(def.id) := def]
    {
      paths := paths[upper(def.id) := def];
    }

    method ApplyDeactivated(id: string)
      modifies this`paths
      ensures paths == old(paths) - {upper(id)}
    {
      paths := paths - {upper(id)};
    }

    method Handle(m: Message) returns (ok: bool)
      modifies this`paths
      ensures ok == !m.payload.Undecodable?
      ensures paths == ApplyMsg(upper, old(paths), m)
      ensures target == old(target) && consumed == old(consumed) && startup == old(startup)
    {
      match m.payload {
        case Undecodable => return false;
        case Upsert(def) => ApplyUpsert(def);
        case Deactivated(id) => ApplyDeactivated(id);
        case OtherType =>
      }
      return true;
    }

    method CheckReady(m: Message)
      requires ready == (target == map[]) && closings == (if ready then 1 else 0)
      modifies this`target, this`ready, this`closings
      ensures target == map p | p in old(target) && !Reaches(m, p, old(target)[p]) :: old(target)[p]
      ensures ready == (target == map[]) && closings == (if ready then 1 else 0)
      ensures paths == old(paths) && consumed == old(consumed) && startup == old(startup)
    {
      if ready || m.part !in target {
        return;
      }
      if m.offset + 1 < target[m.part] {
        return;
      }
      target := target - {m.part};
      if |target| == 0 {
        MarkReady();
      }
    }

    /** Run, over the messages the reader hands out: a handling error is logged and the loop goes on. */
    method Run(messages: seq<Message>)
      requires Valid()
      modifies this
      ensures Valid() && consumed == old(consumed) + messages && startup == old(startup)
    {
      for i := 0 to |messages|
        invariant Valid() && consumed == old(consumed) + messages[..i] && startup == old(startup)
      {
        var m := messages[i];
        var _ := Handle(m);
        CheckReady(m);
        FoldSnoc(Applier(upper), map[], consumed, m);
        BehindSnoc(startup, consumed, m);
        consumed := consumed + [m];
      }
    }

    /** The definitions are listed in whatever order the map is walked. */
    method Lookup(id: string) returns (r: Option<PathDefinition>)
      ensures r.None? <==> forall k :: k in paths ==> !Matches(lower, paths[k], id)
      ensures r.Some? ==> exists k :: k in paths && paths[k] == r.value && Matches(lower, r.value, id)
      ensures r.Some? ==> forall k :: k in paths && Matches(lower, paths[k], id) ==> |lower(paths[k].matchPrefix)| <= |lower(r.value.matchPrefix)|
    {
      var defs := [];
      var left := paths.Keys;
      while left != {}
        invariant left <= paths.Keys
        invariant forall d :: d in defs ==> exists k :: k in paths && paths[k] == d
        invariant forall k :: k in paths && k !in left ==> paths[k] in defs
        decreases left
      {
        var k :| k in left;
        defs := defs + [paths[k]];
        left := left - {k};
      }
      var catalogue := new Catalogue(defs, lower);
      r := catalogue.Lookup(id);
      LookupAnswers(lower, defs, id);
    }
  }

  lemma BehindSnoc(target: Watermarks, consumed: seq<Message>, m: Message)
    ensures Behind(target, consumed + [m])
            == map p | p in Behind(target, consumed) && !Reaches(m, p, target[p]) :: target[p]
  {
  }

  // ---- The cache ----

  /** The last consumed payload for a key. */
  function LastFor(upper: Upper, es: seq<Message>, key: string): Option<Payload> {
    if es == [] then None
    else if KeyOf(upper, es[|es| - 1].payload) == Some(key) then Some(es[|es| - 1].payload)
    else LastFor(upper, es[..|es| - 1], key)
  }

  /** An entry is there exactly when the last event for its upper-cased id is an upsert, and is what that event declared. */
  lemma {:induction false} CacheHoldsTheLatest(upper: Upper, es: seq<Message>, key: string)
    ensures var paths := Fold(Applier(upper), map[], es);
            && (key in paths <==> LastFor(upper, es, key).Some? && LastFor(upper, es, key).value.Upsert?)
            && (key in paths ==> paths[key] == LastFor(upper, es, key).value.def)
  {
    if es != [] {
      CacheHoldsTheLatest(upper, es[..|es| - 1], key);
      FoldLast(Applier(upper), map[], es);
    }
  }

  predicate OnePartitionPerPath(upper: Upper, es: seq<Message>) {
    forall a, b :: a in es && b in es && KeyOf(upper, a.payload).Some? && KeyOf(upper, a.payload) == KeyOf(upper, b.payload) ==> a.part == b.part
  }

  lemma ApplyCommutes(upper: Upper, paths: Paths, a: Message, b: Message)
    requires KeyOf(upper, a.payload).None? || KeyOf(upper, a.payload) != KeyOf(upper, b.payload)
    ensures ApplyMsg(upper, ApplyMsg(upper, paths, a), b) == ApplyMsg(upper, ApplyMsg(upper, paths, b), a)
  {
  }

  function PartOf(m: Message): nat {
    m.part
  }

  /** Two streams that read every partition in the same order. */
  ghost predicate SamePartitions(xs: seq<Message>, ys: seq<Message>) {
    forall p :: Project(PartOf, xs, p) == Project(PartOf, ys, p)
  }

  /** What a partition's last message for a key leaves in the cache. */
  function Ending(upper: Upper, es: seq<Message>, p: Partition, key: string): Option<Payload> {
    LastFor(upper, Project(PartOf, es, p), key)
  }

  /** Two payloads for a key leave the same entry: both none, or the same definition. */
  predicate SameEffect(a: Payload, b: Payload) {
    if a.Upsert? then a == b else !b.Upsert?
  }

  /** For every key, the partitions that mention it end alike. */
  ghost predicate PartitionsEndAlike(upper: Upper, es: seq<Message>) {
    forall key, p, q :: Ending(upper, es, p, key).Some? && Ending(upper, es, q, key).Some? ==>
      SameEffect(Ending(upper, es, p, key).value, Ending(upper, es, q, key).value)
  }

  lemma {:induction false} LastForAppend(upper: Upper, a: seq<Message>, b: seq<Message>, key: string)
    ensures LastFor(upper, a + b, key) == if LastFor(upper, b, key).Some? then LastFor(upper, b, key) else LastFor(upper, a, key)
    decreases |b|
  {
    if b == [] {
      assert a + b == a;
    } else {
      assert (a + b)[..|a + b| - 1] == a + b[..|b| - 1];
      LastForAppend(upper, a, b[..|b| - 1], key);
    }
  }

  lemma EndingSnoc(upper: Upper, es: seq<Message>, m: Message, p: Partition, key: string)
    ensures Ending(upper, es + [m], p, key)
            == if m.part == p && KeyOf(upper, m.payload) == Some(key) then Some(m.payload) else Ending(upper, es, p, key)
  {
    ProjectSnoc(PartOf, es, m, p);
    var before := Project(PartOf, es, p);
    assert (before + [m])[..|before|] == before;
  }

  /** The last message for a key in the stream is the last one for it in its own partition. */
  lemma {:induction false} LastIsSomeEnding(upper: Upper, es: seq<Message>, key: string) returns (p: Partition)
    ensures LastFor(upper, es, key) == Ending(upper, es, p, key)
    ensures LastFor(upper, es, key).None? ==> forall q :: Ending(upper, es, q, key).None?
    decreases |es|
  {
    p := 0;
    if es != [] {
      var init, last := es[..|es| - 1], es[|es| - 1];
      assert es == init + [last];
      p := LastIsSomeEnding(upper, init, key);
      if KeyOf(upper, last.payload) == Some(key) {
        p := last.part;
      }
      forall q ensures Ending(upper, es, q, key)
                       == if last.part == q && KeyOf(upper, last.payload) == Some(key) then Some(last.payload) else Ending(upper, init, q, key)
      {
        EndingSnoc(upper, init, last, q, key);
      }
    }
  }

  /** The stream with one partition's messages left out. */
  function Without(es: seq<Message>, p: Partition): seq<Message>
    decreases |es|
  {
    if es == [] then []
    else
      var init, last := es[..|es| - 1], es[|es| - 1];
      if last.part == p then Without(init, p) else Without(init, p) + [last]
  }

  lemma {:induction false} WithoutProjects(es: seq<Message>, p: Partition, q: Partition)
    ensures Project(PartOf, Without(es, p), q) == if q == p then [] else Project(PartOf, es, q)
    decreases |es|
  {
    if es != [] {
      var init, last := es[..|es| - 1], es[|es| - 1];
      assert es == init + [last];
      WithoutProjects(init, p, q);
      ProjectSnoc(PartOf, init, last, q);
      ProjectSnoc(PartOf, Without(init, p), last, q);
    }
  }

  lemma {:induction false} ProjectTwice(es: seq<Message>, p: Partition, q: Partition)
    ensures Project(PartOf, Project(PartOf, es, p), q) == if q == p then Project(PartOf, es, p) else []
    decreases |es|
  {
    if es != [] {
      var init, last := es[..|es| - 1], es[|es| - 1];
      assert es == init + [last];
      ProjectTwice(init, p, q);
      ProjectSnoc(PartOf, init, last, p);
      ProjectSnoc(PartOf, Project(PartOf, init, p), last, q);
    }
  }

  /** Reading one partition last is a legal order. */
  lemma ReadLast(es: seq<Message>, p: Partition)
    ensures SamePartitions(es, Without(es, p) + Project(PartOf, es, p))
  {
    forall q ensures Project(PartOf, es, q) == Project(PartOf, Without(es, p) + Project(PartOf, es, p), q) {
      ProjectAppend(PartOf, Without(es, p), Project(PartOf, es, p), q);
      WithoutProjects(es, p, q);
      ProjectTwice(es, p, q);
    }
  }

  /** When two partitions end differently for a path, the order of reading them decides what the cache holds. */
  lemma SplitPathDependsOnOrder(upper: Upper, xs: seq<Message>, key: string, p: Partition, q: Partition) returns (ys: seq<Message>, zs: seq<Message>)
    requires Ending(upper, xs, p, key).Some? && Ending(upper, xs, q, key).Some?
    requires !SameEffect(Ending(upper, xs, p, key).value, Ending(upper, xs, q, key).value)
    ensures SamePartitions(xs, ys) && SamePartitions(xs, zs) && Fold(Applier(upper), map[], ys) != Fold(Applier(upper), map[], zs)
  {
    ys := Without(xs, p) + Project(PartOf, xs, p);
    zs := Without(xs, q) + Project(PartOf, xs, q);
    ReadLast(xs, p);
    ReadLast(xs, q);
    LastForAppend(upper, Without(xs, p), Project(PartOf, xs, p), key);
    LastForAppend(upper, Without(xs, q), Project(PartOf, xs, q), key);
    CacheHoldsTheLatest(upper, ys, key);
    CacheHoldsTheLatest(upper, zs, key);
    LastForKey(upper, ys, key);
    LastForKey(upper, zs, key);
  }

  lemma {:induction false} LastForKey(upper: Upper, es: seq<Message>, key: string)
    ensures LastFor(upper, es, key).Some? ==> KeyOf(upper, LastFor(upper, es, key).value) == Some(key)
  {
    if es != [] {
      LastForKey(upper, es[..|es| - 1], key);
    }
  }

  lemma SameEntry(upper: Upper, xs: seq<Message>, ys: seq<Message>, key: string)
    requires PartitionsEndAlike(upper, xs) && SamePartitions(xs, ys)
    ensures var a, b := Fold(Applier(upper), map[], xs), Fold(Applier(upper), map[], ys);
            (key in a <==> key in b) && (key in a ==> a[key] == b[key])
  {
    var p := LastIsSomeEnding(upper, xs, key);
    var q := LastIsSomeEnding(upper, ys, key);
    assert Project(PartOf, xs, p) == Project(PartOf, ys, p) && Project(PartOf, xs, q) == Project(PartOf, ys, q);
    assert Ending(upper, ys, p, key) == Ending(upper, xs, p, key) && Ending(upper, ys, q, key) == Ending(upper, xs, q, key);
    CacheHoldsTheLatest(upper, xs, key);
    CacheHoldsTheLatest(upper, ys, key);
  }

  /** Every order of reading the partitions gives this cache. */
  ghost predicate OrderFreeCache(upper: Upper, xs: seq<Message>) {
    forall ys :: SamePartitions(xs, ys) ==> Fold(Applier(upper), map[], ys) == Fold(Applier(upper), map[], xs)
  }

  /** The cache is the same for every interleaving of the partitions if and only if, for every path, the partitions that mention it end alike. */
  lemma OrderFreeExactlyWhenEndingsAgree(upper: Upper, xs: seq<Message>)
    ensures OrderFreeCache(upper, xs) <==> PartitionsEndAlike(upper, xs)
  {
    if PartitionsEndAlike(upper, xs) {
      forall ys | SamePartitions(xs, ys) ensures Fold(Applier(upper), map[], ys) == Fold(Applier(upper), map[], xs) {
        forall key ensures var a, b := Fold(Applier(upper), map[], xs), Fold(Applier(upper), map[], ys);
                           (key in a <==> key in b) && (key in a ==> a[key] == b[key])
        {
          SameEntry(upper, xs, ys, key);
        }
      }
    } else {
      var key, p, q :| Ending(upper, xs, p, key).Some? && Ending(upper, xs, q, key).Some?
                       && !SameEffect(Ending(upper, xs, p, key).value, Ending(upper, xs, q, key).value);
      var ys, zs := SplitPathDependsOnOrder(upper, xs, key, p, q);
    }
  }

  /** In particular when each path lives in one partition; the readiness flag never depends on the order. */
  lemma InterleavingIsIrrelevant(upper: Upper, xs: seq<Message>, ys: seq<Message>, target: Watermarks)
    requires SamePartitions(xs, ys)
    ensures OnePartitionPerPath(upper, xs) ==> Fold(Applier(upper), map[], xs) == Fold(Applier(upper), map[], ys)
    ensures Behind(target, xs) == Behind(target, ys)
  {
    SameMembers(PartOf, xs, ys);
    if OnePartitionPerPath(upper, xs) {
      forall key, p, q | Ending(upper, xs, p, key).Some? && Ending(upper, xs, q, key).Some?
        ensures SameEffect(Ending(upper, xs, p, key).value, Ending(upper, xs, q, key).value)
      {
        var a := LastMessage(upper, Project(PartOf, xs, p), key);
        var b := LastMessage(upper, Project(PartOf, xs, q), key);
        ProjectMembers(PartOf, xs, p);
        ProjectMembers(PartOf, xs, q);
      }
      OrderFreeExactlyWhenEndingsAgree(upper, xs);
    }
  }

  lemma {:induction false} LastMessage(upper: Upper, es: seq<Message>, key: string) returns (m: Message)
    requires LastFor(upper, es, key).Some?
    ensures m in es && KeyOf(upper, m.payload) == Some(key) && LastFor(upper, es, key) == Some(m.payload)
  {
    m := es[|es| - 1];
    if KeyOf(upper, m.payload) != Some(key) {
      m := LastMessage(upper, es[..|es| - 1], key);
    }
  }

  // ---- Readiness ----

  /** What the topic holds in one partition: its messages in offset order, gaps allowed. */
  predicate IsLog(log: seq<Message>, p: Partition) {
    && (forall i :: 0 <= i < |log| ==> log[i].part == p)
    && (forall i, j :: 0 <= i < j < |log| ==> log[i].offset < log[j].offset)
  }

  ghost predicate IsTopic(topic: map<Partition, seq<Message>>) {
    forall p :: p in topic ==> IsLog(topic[p], p)
  }

  /** The stream has read some first part of every partition, in order. */
  ghost predicate ReadsFrom(topic: map<Partition, seq<Message>>, es: seq<Message>) {
    && (forall p :: p in topic ==> Project(PartOf, es, p) <= topic[p])
    && (forall m :: m in es ==> m.part in topic)
  }

  /** Watermarks of a startup: only of the topic's partitions, and at least 1 where the partition was not empty. */
  predicate IsStartup(topic: map<Partition, seq<Message>>, target: Watermarks) {
    forall p :: p in target ==> p in topic && target[p] > 0
  }

  /** Everything below the watermark has been consumed. */
  predicate AllBelowConsumed(log: seq<Message>, watermark: nat, es: seq<Message>) {
    forall i :: 0 <= i < |log| && log[i].offset < watermark ==> log[i] in es
  }

  /** Every message that was there at startup has been consumed. */
  predicate StartupConsumed(topic: map<Partition, seq<Message>>, target: Watermarks, es: seq<Message>)
    requires IsStartup(topic, target)
  {
    forall p :: p in target ==> AllBelowConsumed(topic[p], target[p], es)
  }

  /** The offset just below the watermark holds a message. */
  predicate SlotTaken(log: seq<Message>, watermark: nat) {
    exists i :: 0 <= i < |log| && log[i].offset + 1 == watermark
  }

  /** A partition that has caught up has been read up to its watermark, gaps or not. */
  lemma CaughtReadsAll(topic: map<Partition, seq<Message>>, es: seq<Message>, p: Partition, watermark: nat)
    requires IsTopic(topic) && ReadsFrom(topic, es) && p in topic && Caught(es, p, watermark)
    ensures AllBelowConsumed(topic[p], watermark, es)
  {
    var log, read := topic[p], Project(PartOf, es, p);
    ProjectMembers(PartOf, es, p);
    var m :| m in es && Reaches(m, p, watermark);
    assert m in read;
    var k :| 0 <= k < |read| && read[k] == m;
    assert log[k] == m;
    forall i | 0 <= i < |log| && log[i].offset < watermark ensures log[i] in es {
      assert i <= k;
      assert read[i] == log[i] && read[i] in read;
    }
  }

  /** The flag never comes up too early. */
  lemma ReadyMeansReplayed(topic: map<Partition, seq<Message>>, target: Watermarks, es: seq<Message>)
    requires IsTopic(topic) && ReadsFrom(topic, es) && IsStartup(topic, target) && Behind(target, es) == map[]
    ensures StartupConsumed(topic, target, es)
  {
    forall p | p in target ensures AllBelowConsumed(topic[p], target[p], es) {
      assert p !in Behind(target, es);
      CaughtReadsAll(topic, es, p, target[p]);
    }
  }

  /** With a message in the slot below every watermark, the flag is up exactly when everything from before startup is consumed. */
  lemma ReadyExactlyWhenReplayed(topic: map<Partition, seq<Message>>, target: Watermarks, es: seq<Message>)
    requires IsTopic(topic) && ReadsFrom(topic, es) && IsStartup(topic, target)
    requires forall p :: p in target ==> SlotTaken(topic[p], target[p])
    ensures Behind(target, es) == map[] <==> StartupConsumed(topic, target, es)
  {
    if Behind(target, es) == map[] {
      ReadyMeansReplayed(topic, target, es);
    }
    if StartupConsumed(topic, target, es) {
      forall p | p in target ensures Caught(es, p, target[p]) {
        assert SlotTaken(topic[p], target[p]) && AllBelowConsumed(topic[p], target[p], es);
        var i :| 0 <= i < |topic[p]| && topic[p][i].offset + 1 == target[p];
        assert IsLog(topic[p], p);
        assert Reaches(topic[p][i], p, target[p]);
      }
    }
  }

  /** A log without gaps always has it: then the flag is exact. */
  lemma ContiguousTakesSlot(log: seq<Message>, first: nat, watermark: nat)
    requires forall i :: 0 <= i < |log| ==> log[i].offset == first + i
    requires first < watermark <= first + |log|
    ensures SlotTaken(log, watermark)
  {
    assert log[watermark - 1 - first].offset + 1 == watermark;
  }

  /** The messages below a watermark. */
  function Below(log: seq<Message>, watermark: nat): seq<Message>
    decreases |log|
  {
    if log == [] then []
    else if log[|log| - 1].offset < watermark then log
    else Below(log[..|log| - 1], watermark)
  }

  lemma {:induction false} BelowIs(log: seq<Message>, watermark: nat, p: Partition)
    requires IsLog(log, p)
    ensures Below(log, watermark) <= log
    ensures forall m :: m in Below(log, watermark) <==> m in log && m.offset < watermark
    decreases |log|
  {
    if log != [] {
      var init, last := log[..|log| - 1], log[|log| - 1];
      assert log == init + [last];
      BelowIs(init, watermark, p);
      if last.offset < watermark {
        forall m | m in log ensures m.offset < watermark {
          var i :| 0 <= i < |log| && log[i] == m;
        }
      }
    }
  }

  lemma {:induction false} ProjectLog(log: seq<Message>, p: Partition, q: Partition)
    requires forall i :: 0 <= i < |log| ==> log[i].part == p
    ensures Project(PartOf, log, q) == if q == p then log else []
    decreases |log|
  {
    if log != [] {
      ProjectLog(log[1..], p, q);
    }
  }

  /** A reader that has read just some logs, one after another. */
  lemma {:induction false} ReadLogs(logs: map<Partition, seq<Message>>, parts: set<Partition>) returns (es: seq<Message>)
    requires parts <= logs.Keys && IsTopic(logs)
    ensures forall p :: Project(PartOf, es, p) == if p in parts then logs[p] else []
    decreases parts
  {
    es := [];
    if p :| p in parts {
      var before := ReadLogs(logs, parts - {p});
      es := before + logs[p];
      assert IsLog(logs[p], p);
      forall q ensures Project(PartOf, es, q) == if q in parts then logs[q] else [] {
        ProjectAppend(PartOf, before, logs[p], q);
        ProjectLog(logs[p], p, q);
      }
    }
  }

  lemma BelowIsLog(log: seq<Message>, watermark: nat, p: Partition)
    requires IsLog(log, p)
    ensures IsLog(Below(log, watermark), p)
  {
    BelowIs(log, watermark, p);
    var below := Below(log, watermark);
    assert forall i :: 0 <= i < |below| ==> below[i] == log[i];
  }

  /** What was there at startup, partition by partition. */
  function StartupLogs(topic: map<Partition, seq<Message>>, target: Watermarks): map<Partition, seq<Message>>
    requires IsStartup(topic, target)
  {
    map p | p in target :: Below(topic[p], target[p])
  }

  lemma StartupLogsAreLogs(topic: map<Partition, seq<Message>>, target: Watermarks)
    requires IsTopic(topic) && IsStartup(topic, target)
    ensures IsTopic(StartupLogs(topic, target))
  {
    var logs := StartupLogs(topic, target);
    forall p | p in logs ensures IsLog(logs[p], p) {
      BelowIsLog(topic[p], target[p], p);
    }
  }

  lemma ReadBelow(log: seq<Message>, es: seq<Message>, p: Partition, watermark: nat)
    requires IsLog(log, p) && Project(PartOf, es, p) == Below(log, watermark)
    ensures Project(PartOf, es, p) <= log && AllBelowConsumed(log, watermark, es)
    ensures forall m :: m in es && m.part == p ==> m.offset < watermark && m in log
  {
    BelowIs(log, watermark, p);
    ProjectMembers(PartOf, es, p);
  }

  /** A reader that has read exactly what was there at startup. */
  lemma ReadToWatermarks(topic: map<Partition, seq<Message>>, target: Watermarks) returns (es: seq<Message>)
    requires IsTopic(topic) && IsStartup(topic, target)
    ensures ReadsFrom(topic, es) && StartupConsumed(topic, target, es)
    ensures forall m :: m in es ==> m.part in target && m.offset < target[m.part] && m in topic[m.part]
  {
    StartupLogsAreLogs(topic, target);
    es := ReadLogs(StartupLogs(topic, target), target.Keys);
    forall p | p in target
      ensures Project(PartOf, es, p) <= topic[p] && AllBelowConsumed(topic[p], target[p], es)
      ensures forall m :: m in es && m.part == p ==> m.offset < target[p] && m in topic[p]
    {
      assert IsLog(topic[p], p);
      ReadBelow(topic[p], es, p, target[p]);
    }
    forall m | m in es ensures m.part in target {
      ProjectMembers(PartOf, es, m.part);
    }
  }

  /** The flag answers the question it is for, at every point of every replay. */
  ghost predicate FlagIsExact(topic: map<Partition, seq<Message>>, target: Watermarks)
    requires IsStartup(topic, target)
  {
    forall es :: ReadsFrom(topic, es) ==> (Behind(target, es) == map[] <==> StartupConsumed(topic, target, es))
  }

  /**
   The flag is up exactly when everything from before startup has been consumed, at every point of every replay, if
   and only if the offset just below each watermark holds a message. A partition whose last offset holds none (a
   compacted or transactional log) keeps the flag down after everything was read, until something newer arrives.
   */
  lemma FlagExactlyWhenSlotsTaken(topic: map<Partition, seq<Message>>, target: Watermarks)
    requires IsTopic(topic) && IsStartup(topic, target)
    ensures FlagIsExact(topic, target) <==> forall p :: p in target ==> SlotTaken(topic[p], target[p])
  {
    if forall p :: p in target ==> SlotTaken(topic[p], target[p]) {
      forall es | ReadsFrom(topic, es) ensures Behind(target, es) == map[] <==> StartupConsumed(topic, target, es) {
        ReadyExactlyWhenReplayed(topic, target, es);
      }
    } else {
      var p :| p in target && !SlotTaken(topic[p], target[p]);
      var es := GapDelaysReady(topic, target, p);
    }
  }

  /** So an empty slot in any partition leaves a reader that has read everything from before startup not ready. */
  lemma GapDelaysReady(topic: map<Partition, seq<Message>>, target: Watermarks, p: Partition) returns (es: seq<Message>)
    requires IsTopic(topic) && IsStartup(topic, target) && p in target && !SlotTaken(topic[p], target[p])
    ensures ReadsFrom(topic, es) && StartupConsumed(topic, target, es) && p in Behind(target, es)
  {
    es := ReadToWatermarks(topic, target);
    forall m | m in es ensures !Reaches(m, p, target[p]) {
      if m.part == p {
        var i :| 0 <= i < |topic[p]| && topic[p][i] == m;
        assert topic[p][i].offset + 1 != target[p];
      }
    }
  }

  /** Once up, the flag stays up. */
  lemma ReadyForGood(target: Watermarks, es: seq<Message>, more: seq<Message>)
    requires Behind(target, es) == map[]
    ensures Behind(target, es + more) == map[]
  {
    forall p | p in target ensures Caught(es + more, p, target[p]) {
      assert p !in Behind(target, es);
      var m :| m in es && Reaches(m, p, target[p]);
      assert m in es + more;
    }
  }
}

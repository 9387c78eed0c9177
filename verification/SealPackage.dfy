/**
 SealPackage (internal/application/usecases/seal_package.go): one sealed package per PACK task, deduplicated by task id,
 with a live hazard-class lookup per scanned item that fails open.
 */
module Sealing {
  import opened Prelude
  import opened Packages
  import Tasks
  import TaskStore
  import TaskUseCases

  type PackageStore = map<PackageId, Row>
  type StationId = Tasks.StationId

  /** The classification service's answer for one item. */
  datatype Answer = LookupFails | Info(known: bool, hazmat: bool, dotClass: int)

  /** The fate of the scope around save and publish. */
  datatype Scope = Commits | RollsBack | CommitsButErrs

  datatype SealError = ReadFailed | TaskNotFound | WrongTaskType | NotOwner | Refused(cause: Error) | ScopeFailed

  /** An item to pack, with what the lookup will say about it. */
  datatype Content = Content(sku: Sku, answer: Answer)

  /** What a repository read gives: an error, or the row if there is one. */
  datatype TaskRead = ReadErr | Read(row: Option<Tasks.Row>)

  /** A call, with whether its look for an existing package fails and what reading the task will give. */
  datatype Call = Call(
    task: TaskId, station: StationId, contents: seq<Content>, lookFails: bool, read: TaskRead, newId: PackageId, scope: Scope)

  /** The ownership test: the lease's station, whether or not the lease has run out. */
  predicate OwnsLease(t: Tasks.Row, station: StationId) {
    t.lease.Some? && t.lease.value.station == station
  }

  function NewFor(call: Call, t: Tasks.Row): Row {
    NewRow(call.newId, t.fixed.orderRef, Some(call.task), t.fixed.fragile, t.fixed.giftWrap)
  }

  /** No lookup wired, a failed lookup, an unknown product and a harmless one all count as no class. */
  function HazardClass(wired: bool, answer: Answer): int {
    if !wired || answer.LookupFails? || !answer.known || !answer.hazmat then 0 else answer.dotClass
  }

  function Items(wired: bool, contents: seq<Content>): seq<Item> {
    if contents == [] then []
    else [Item(contents[0].sku, HazardClass(wired, contents[0].answer))] + Items(wired, contents[1..])
  }

  predicate IsPackageOf(packages: PackageStore, task: TaskId, id: PackageId) {
    id in packages && packages[id].task == Some(task)
  }

  ghost predicate HasPackage(packages: PackageStore, task: TaskId) {
    exists id :: IsPackageOf(packages, task, id)
  }

  /** The package packed for a call, or why packing stopped. */
  function Packed(wired: bool, call: Call, t: Tasks.Row): Result<Row, SealError> {
    var (p, err) := ScanAll(NewFor(call, t), Items(wired, call.contents));
    if err.Some? then Err(Refused(err.value))
    else
      var (sealed_, sealErr) := SealResult(p);
      if sealErr.Some? then Err(Refused(sealErr.value)) else Ok(sealed_)
  }

  /** Everything between the look for an existing package and the scope: the sealed package, or why there is none. */
  function Prepared(wired: bool, call: Call): Result<Row, SealError> {
    if call.read.ReadErr? then Err(ReadFailed)
    else if call.read.row.None? then Err(TaskNotFound)
    else if call.read.row.value.fixed.taskType != Tasks.PACK then Err(WrongTaskType)
    else if !OwnsLease(call.read.row.value, call.station) then Err(NotOwner)
    else Packed(wired, call, call.read.row.value)
  }

  /** Another package of the same task is stored. */
  predicate Taken(packages: PackageStore, row: Row) {
    exists id :: id in packages && id != row.id && row.task.Some? && packages[id].task == row.task
  }

  /** The scope around the save: with the unique index on the task id a second package of a task is refused. */
  function Stored(packages: PackageStore, row: Row, scope: Scope, indexed: bool): (PackageStore, Result<Row, SealError>) {
    if scope == RollsBack || (indexed && Taken(packages, row)) then (packages, Err(ScopeFailed))
    else (packages[row.id := row], if scope == Commits then Ok(row) else Err(ScopeFailed))
  }

  /** A call for a task that has no package yet, run on its own: the index has nothing to refuse. */
  function FirstSeal(packages: PackageStore, wired: bool, call: Call): (PackageStore, Result<Row, SealError>) {
    var r := Prepared(wired, call);
    if r.Err? then (packages, r) else Stored(packages, r.value, call.scope, false)
  }

  class SealPackage {
    var packages: PackageStore
    const wired: bool

    constructor (wired: bool)
      ensures packages == map[] && this.wired == wired
    {
      packages, this.wired := map[], wired;
    }

    method FindByTaskId(task: TaskId) returns (found: Option<Row>)
      ensures found.None? <==> !HasPackage(packages, task)
      ensures found.Some? ==> exists id :: IsPackageOf(packages, task, id) && packages[id] == found.value
    {
      var left := packages.Keys;
      while left != {}
        invariant left <= packages.Keys
        invariant forall id :: id in packages && id !in left ==> !IsPackageOf(packages, task, id)
        decreases left
      {
        var id :| id in left;
        if packages[id].task == Some(task) {
          assert IsPackageOf(packages, task, id);
          return Some(packages[id]);
        }
        left := left - {id};
      }
      return None;
    }

    method Execute(call: Call) returns (r: Result<Row, SealError>)
      modifies this
      ensures call.lookFails ==> packages == old(packages) && r == Err(ReadFailed)
      ensures !call.lookFails && HasPackage(old(packages), call.task) ==>
                packages == old(packages) && r.Ok? && exists id :: IsPackageOf(packages, call.task, id) && packages[id] == r.value
      ensures !call.lookFails && !HasPackage(old(packages), call.task) ==> (packages, r) == FirstSeal(old(packages), wired, call)
      ensures !call.lookFails && !HasPackage(old(packages), call.task) && r.Ok? ==>
                && call.read.Read? && call.read.row.Some? && AnswersCompatible(wired, call.contents)
                && SealedFrom(r.value, wired, call, call.read.row.value) && packages == old(packages)[call.newId := r.value]
    {
      if call.lookFails {
        return Err(ReadFailed);
      }
      var existing := FindByTaskId(call.task);
      if existing.Some? {
        return Ok(existing.value);
      }
      if call.read.ReadErr? {
        return Err(ReadFailed);
      }
      if call.read.row.None? {
        return Err(TaskNotFound);
      }
      var t := call.read.row.value;
      if t.fixed.taskType != Tasks.PACK {
        return Err(WrongTaskType);
      }
      if t.lease.None? || t.lease.value.station != call.station {
        return Err(NotOwner);
      }
      var p := new Package.New(call.newId, t.fixed.orderRef, Some(call.task), t.fixed.fragile, t.fixed.giftWrap);
      ghost var items := Items(wired, call.contents);
      for i := 0 to |call.contents|
        invariant ScanAll(NewFor(call, t), items)
                  == ScanAll(p.View(), Items(wired, call.contents[i..]))
        invariant packages == old(packages) && fresh(p)
      {
        assert call.contents[i..][1..] == call.contents[i + 1..];
        var err := p.ScanItemWithClass(call.contents[i].sku, HazardClass(wired, call.contents[i].answer));
        if err.Some? {
          return Err(Refused(err.value));
        }
      }
      var sealErr := p.Seal();
      if sealErr.Some? {
        return Err(Refused(sealErr.value));
      }
      var row := p.View();
      if call.scope == RollsBack {
        return Err(ScopeFailed);
      }
      PackedFor(wired, call, t);
      PacksByAnswers(wired, call, t);
      packages := packages[call.newId := row];
      return if call.scope == Commits then Ok(row) else Err(ScopeFailed);
    }
  }

  // ---- When a first call seals ----

  /** Packing comes to a sealed package exactly when there is something to pack and the classes go together. */
  lemma PacksExactlyWhen(wired: bool, call: Call, t: Tasks.Row)
    ensures Packed(wired, call, t).Ok?
            <==> call.contents != [] && PairwiseCompatible(HazardClasses(Items(wired, call.contents)))
  {
    var items := Items(wired, call.contents);
    ScanAcceptsExactlyWhen(NewFor(call, t), items);
    assert [] + HazardClasses(items) == HazardClasses(items);
    assert [] + Skus(items) == Skus(items);
    SkusOfItems(wired, call.contents);
  }

  // ---- Told from the lookup's answers ----

  /** The classes the lookup gave, item by item: an answer counts when it came, and says known, hazardous, and of which class. */
  function AnsweredClasses(wired: bool, contents: seq<Content>): seq<int> {
    if contents == [] then []
    else match contents[0].answer
      case Info(true, true, c) => (if wired && c != 0 then [c] else []) + AnsweredClasses(wired, contents[1..])
      case _ => AnsweredClasses(wired, contents[1..])
  }

  /** Any two items answered as hazardous may share a package. */
  predicate AnswersCompatible(wired: bool, contents: seq<Content>) {
    forall i, j :: 0 <= i < j < |contents| && wired
                   && contents[i].answer.Info? && contents[i].answer.known && contents[i].answer.hazmat
                   && contents[j].answer.Info? && contents[j].answer.known && contents[j].answer.hazmat ==>
      !IsSegregationIncompatible(contents[i].answer.dotClass, contents[j].answer.dotClass)
  }

  lemma {:induction false} AnswersAreClasses(wired: bool, contents: seq<Content>)
    ensures HazardClasses(Items(wired, contents)) == AnsweredClasses(wired, contents)
    decreases |contents|
  {
    if contents != [] {
      AnswersAreClasses(wired, contents[1..]);
      var item := Item(contents[0].sku, HazardClass(wired, contents[0].answer));
      assert Items(wired, contents) == [item] + Items(wired, contents[1..]);
      assert Items(wired, contents)[1..] == Items(wired, contents[1..]);
    }
  }

  lemma AnswersDecide(wired: bool, contents: seq<Content>)
    ensures PairwiseCompatible(HazardClasses(Items(wired, contents))) <==> AnswersCompatible(wired, contents)
  {
    var items := Items(wired, contents);
    CompatibleByItem(items);
    forall i | 0 <= i < |contents|
      ensures |items| == |contents| && items[i] == Item(contents[i].sku, HazardClass(wired, contents[i].answer))
    {
      ItemAt(wired, contents, i);
    }
    if contents == [] {
      assert items == [];
    }
  }

  lemma {:induction false} SkuAt(wired: bool, contents: seq<Content>, i: nat)
    requires i < |contents|
    ensures |Skus(Items(wired, contents))| == |contents| && Skus(Items(wired, contents))[i] == contents[i].sku
    decreases |contents|
  {
    SkusOfItems(wired, contents);
    var items := Items(wired, contents);
    assert items[1..] == Items(wired, contents[1..]);
    if i > 0 {
      SkuAt(wired, contents[1..], i - 1);
    }
  }

  /** The sealed package of a call: every item in order, the answered classes in order, the task's own order and hints. */
  predicate SealedFrom(p: Row, wired: bool, call: Call, t: Tasks.Row) {
    && p.status == Sealed && p.id == call.newId && p.task == Some(call.task)
    && p.order == t.fixed.orderRef && p.fragile == t.fixed.fragile && p.giftWrap == t.fixed.giftWrap
    && |p.contents| == |call.contents| && (forall i :: 0 <= i < |p.contents| ==> p.contents[i] == call.contents[i].sku)
    && p.classes == AnsweredClasses(wired, call.contents)
  }

  /** Packing, told from the answers: when it succeeds, and what is then sealed. */
  lemma PacksByAnswers(wired: bool, call: Call, t: Tasks.Row)
    ensures Packed(wired, call, t).Ok? <==> call.contents != [] && AnswersCompatible(wired, call.contents)
    ensures Packed(wired, call, t).Ok? ==> SealedFrom(Packed(wired, call, t).value, wired, call, t)
  {
    var items := Items(wired, call.contents);
    PacksExactlyWhen(wired, call, t);
    AnswersDecide(wired, call.contents);
    AnswersAreClasses(wired, call.contents);
    ScanAcceptsExactlyWhen(NewFor(call, t), items);
    assert [] + HazardClasses(items) == HazardClasses(items) && [] + Skus(items) == Skus(items);
    forall i | 0 <= i < |call.contents| ensures |Skus(items)| == |call.contents| && Skus(items)[i] == call.contents[i].sku {
      SkuAt(wired, call.contents, i);
    }
  }

  /** A first call leaves a package exactly when its station holds the task's lease, there is something to pack, and the classes go together. */
  lemma SealsExactlyWhen(packages: PackageStore, wired: bool, call: Call)
    requires !HasPackage(packages, call.task)
    ensures HasPackage(FirstSeal(packages, wired, call).0, call.task)
            <==> && call.read.Read? && call.read.row.Some?
                 && call.read.row.value.fixed.taskType == "PACK"
                 && call.read.row.value.lease.Some? && call.read.row.value.lease.value.station == call.station
                 && call.contents != [] && AnswersCompatible(wired, call.contents)
                 && call.scope != RollsBack
  {
    if call.read.Read? && call.read.row.Some? {
      var r := Packed(wired, call, call.read.row.value);
      PacksByAnswers(wired, call, call.read.row.value);
      PackedFor(wired, call, call.read.row.value);
      if r.Ok? {
        assert IsPackageOf(packages[call.newId := r.value], call.task, call.newId);
      }
    }
  }

  lemma {:induction false} SkusOfItems(wired: bool, contents: seq<Content>)
    ensures |Skus(Items(wired, contents))| == |contents|
    decreases |contents|
  {
    if contents != [] {
      SkusOfItems(wired, contents[1..]);
    }
  }

  lemma {:induction false} AnsweredAppend(wired: bool, a: seq<Content>, b: seq<Content>)
    ensures AnsweredClasses(wired, a + b) == AnsweredClasses(wired, a) + AnsweredClasses(wired, b)
    decreases |a|
  {
    if a == [] {
      assert a + b == b;
    } else {
      assert (a + b)[0] == a[0] && (a + b)[1..] == a[1..] + b;
      AnsweredAppend(wired, a[1..], b);
    }
  }

  /**
   The lookup fails open: with no lookup wired any item, and otherwise an item whose lookup failed, found nothing or found
   it harmless, may join any contents at any point. It changes neither whether they pack nor the classes on record.
   */
  lemma FailsOpen(wired: bool, call: Call, t: Tasks.Row, a: seq<Content>, x: Content, b: seq<Content>)
    requires call.contents == a + [x] + b
    requires !wired || x.answer.LookupFails? || !x.answer.known || !x.answer.hazmat
    ensures AnsweredClasses(wired, a + [x] + b) == AnsweredClasses(wired, a + b)
    ensures var without := Packed(wired, call.(contents := a + b), t);
            && (Packed(wired, call, t).Ok? <==> a + b == [] || without.Ok?)
            && (without.Ok? ==> Packed(wired, call, t).value.classes == without.value.classes)
  {
    AnsweredAppend(wired, a + [x], b);
    AnsweredAppend(wired, a, [x]);
    AnsweredAppend(wired, a, b);
    assert [x][1..] == [];
    assert AnsweredClasses(wired, [x]) == [];
    AnswersAreClasses(wired, a + [x] + b);
    AnswersAreClasses(wired, a + b);
    PacksExactlyWhen(wired, call, t);
    PacksExactlyWhen(wired, call.(contents := a + b), t);
    PackedClasses(wired, call, t);
    PackedClasses(wired, call.(contents := a + b), t);
  }

  lemma PackedClasses(wired: bool, call: Call, t: Tasks.Row)
    ensures Packed(wired, call, t).Ok? ==> Packed(wired, call, t).value.classes == HazardClasses(Items(wired, call.contents))
  {
    ScanAcceptsExactlyWhen(NewFor(call, t), Items(wired, call.contents));
    assert [] + HazardClasses(Items(wired, call.contents)) == HazardClasses(Items(wired, call.contents));
  }

  // ---- What a sealed package really holds ----

  /** The class the lookup gave, if it gave one. */
  predicate Classed(wired: bool, c: Content) {
    wired && c.answer.Info? && c.answer.known && c.answer.hazmat && c.answer.dotClass != 0
  }

  /** Every class given is the item's true one. */
  predicate Truthful(wired: bool, contents: seq<Content>, truth: Sku -> int) {
    forall i :: 0 <= i < |contents| && Classed(wired, contents[i]) ==> contents[i].answer.dotClass == truth(contents[i].sku)
  }

  predicate TrulyClash(contents: seq<Content>, truth: Sku -> int, i: nat, j: nat)
    requires i < |contents| && j < |contents|
  {
    IsSegregationIncompatible(truth(contents[i].sku), truth(contents[j].sku))
  }

  lemma {:induction false} ItemAt(wired: bool, contents: seq<Content>, i: nat)
    requires i < |contents|
    ensures |Items(wired, contents)| == |contents|
    ensures Items(wired, contents)[i] == Item(contents[i].sku, HazardClass(wired, contents[i].answer))
    decreases |contents|
  {
    if |contents| > 1 {
      ItemAt(wired, contents[1..], if i == 0 then 0 else i - 1);
    } else {
      assert contents[1..] == [];
    }
  }

  /**
   What sealing guarantees about the goods themselves: when every class the lookup gives is the true one, the true
   classes in a sealed package are pairwise compatible exactly when no clashing pair contains an item without a class.
   */
  lemma TrulyCompatibleExactlyWhen(wired: bool, call: Call, t: Tasks.Row, truth: Sku -> int)
    requires Truthful(wired, call.contents, truth) && Packed(wired, call, t).Ok?
    ensures var cs := call.contents;
            (forall i, j :: 0 <= i < j < |cs| ==> !TrulyClash(cs, truth, i, j))
            <==> (forall i, j :: 0 <= i < j < |cs| && TrulyClash(cs, truth, i, j) ==> Classed(wired, cs[i]) && Classed(wired, cs[j]))
  {
    var cs := call.contents;
    var items := Items(wired, cs);
    PacksExactlyWhen(wired, call, t);
    CompatibleByItem(items);
    forall i, j | 0 <= i < j < |cs| && Classed(wired, cs[i]) && Classed(wired, cs[j]) ensures !TrulyClash(cs, truth, i, j) {
      ItemAt(wired, cs, i);
      ItemAt(wired, cs, j);
      assert !IsSegregationIncompatible(items[i].hazardClass, items[j].hazardClass);
    }
  }

  /**
   The owner is looked at and the expiry is not, so SealPackage can tell a sweep: sweeping changes its verdict
   exactly when the caller's own lease on the task is due.
   */
  lemma SealNoticesSweep(rows: TaskStore.Rows, id: TaskId, station: StationId, now: Tasks.Time)
    requires TaskUseCases.Sound(rows) && id in rows
    ensures OwnsLease(TaskUseCases.SweepStep(rows, now)[id], station) != OwnsLease(rows[id], station)
            <==> Tasks.LeaseDue(rows[id], now) && rows[id].lease.value.station == station
  {
  }

  // ---- One package per task ----

  predicate OnePerTask(packages: PackageStore) {
    forall a, b :: a in packages && b in packages && packages[a].task.Some? && packages[a].task == packages[b].task ==> a == b
  }

  /** What any one call, one after another, may leave behind. */
  ghost predicate Executes(before: PackageStore, wired: bool, call: Call, after: PackageStore) {
    after == if call.lookFails || HasPackage(before, call.task) then before else FirstSeal(before, wired, call).0
  }

  lemma CallKeepsOnePerTask(before: PackageStore, wired: bool, call: Call, after: PackageStore)
    requires OnePerTask(before) && call.newId !in before && Executes(before, wired, call, after)
    ensures OnePerTask(after)
    ensures forall id :: id in before ==> id in after && after[id] == before[id]
  {
    if !HasPackage(before, call.task) && Prepared(wired, call).Ok? {
      PackedFor(wired, call, call.read.row.value);
      forall id | id in before ensures before[id].task != Some(call.task) {
        assert !IsPackageOf(before, call.task, id);
      }
    }
  }

  lemma {:induction false} ScanKeepsTask(p: Row, items: seq<Item>)
    ensures ScanAll(p, items).0.task == p.task && ScanAll(p, items).0.id == p.id && ScanAll(p, items).0.order == p.order
    decreases |items|
  {
    if items != [] {
      ScanKeepsTask(ScanResult(p, items[0].sku, items[0].hazardClass).0, items[1..]);
    }
  }

  lemma PackedFor(wired: bool, call: Call, t: Tasks.Row)
    ensures var r := Packed(wired, call, t);
            r.Ok? ==> r.value.task == Some(call.task) && r.value.id == call.newId && r.value.order == t.fixed.orderRef && r.value.status == Sealed
  {
    ScanKeepsTask(NewFor(call, t), Items(wired, call.contents));
  }

  /** The stores a sequence of calls goes through. */
  ghost predicate IsRun(stores: seq<PackageStore>, wired: bool, calls: seq<Call>) {
    && |stores| == |calls| + 1
    && stores[0] == map[]
    && forall i :: 0 <= i < |calls| ==> calls[i].newId !in stores[i] && Executes(stores[i], wired, calls[i], stores[i + 1])
  }

  /** Over any sequence of calls, retries included, a task has at most one package, and a package once stored stays. */
  lemma {:induction false} OnePackagePerTask(stores: seq<PackageStore>, wired: bool, calls: seq<Call>, i: nat, j: nat)
    requires IsRun(stores, wired, calls) && i <= j < |stores|
    ensures OnePerTask(stores[j])
    ensures forall id :: id in stores[i] ==> id in stores[j] && stores[j][id] == stores[i][id]
    decreases j
  {
    if j > 0 {
      OnePackagePerTask(stores, wired, calls, if i < j then i else j - 1, j - 1);
      CallKeepsOnePerTask(stores[j - 1], wired, calls[j - 1], stores[j]);
    }
  }
}

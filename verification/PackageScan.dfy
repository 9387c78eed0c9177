/**
 Packing (internal/domain/package/package.go, segregation.go): items scanned one by one against the hazard-class matrix,
 sealing, and the weigh check. The matrix collapses 49 CFR section 177.848 to the nine parent classes.
 */
module Packages {
  import opened Prelude
  import Tasks

  type PackageId = nat
  type OrderRef = Tasks.OrderRef
  type TaskId = Tasks.TaskId
  type Sku = nat

  // ---- The matrix ----

  /** Row and column 0 are padding. */
  const SegregationMatrix: seq<seq<bool>> := [
    [false, false, false, false, false, false, false, false, false, false],
    [false, true,  true,  true,  true,  true,  true,  true,  true,  true],
    [false, true,  false, true,  true,  true,  true,  true,  true,  false],
    [false, true,  true,  false, false, true,  true,  false, false, false],
    [false, true,  true,  false, false, false, true,  false, true,  false],
    [false, true,  true,  true,  false, false, true,  false, true,  false],
    [false, true,  true,  true,  true,  true,  false, false, true,  false],
    [false, true,  true,  false, false, false, false, false, false, false],
    [false, true,  true,  false, true,  true,  true,  false, false, false],
    [false, true,  false, false, false, false, false, false, false, false]
  ]

  lemma MatrixShape()
    ensures |SegregationMatrix| == 10 && forall i :: 0 <= i < 10 ==> |SegregationMatrix[i]| == 10
  {
  }

  predicate IsSegregationIncompatible(a: int, b: int) {
    MatrixShape();
    if a < 1 || a > 9 || b < 1 || b > 9 then false else SegregationMatrix[a][b]
  }

  lemma Symmetric(a: int, b: int)
    ensures IsSegregationIncompatible(a, b) == IsSegregationIncompatible(b, a)
  {
  }

  /** The start-up check of the package, which panics on an asymmetric matrix. */
  method SymmetryHolds() returns (ok: bool)
    ensures ok
  {
    MatrixShape();
    for i := 1 to 10
    {
      for j := 1 to 10
      {
        Symmetric(i, j);
        if SegregationMatrix[i][j] != SegregationMatrix[j][i] {
          return false;
        }
      }
    }
    return true;
  }

  /** The documented rules: class 1 goes with nothing, itself included; class 9 only clashes with class 1; every other class goes with itself. */
  lemma DocumentedRules(c: int)
    requires 1 <= c <= 9
    ensures IsSegregationIncompatible(1, c)
    ensures IsSegregationIncompatible(9, c) <==> c == 1
    ensures IsSegregationIncompatible(c, c) <==> c == 1
  {
  }

  /** The matrix itself, pair by pair: among classes 2 to 8 exactly these different ones may share a package. */
  lemma CompatiblePairs(a: int, b: int)
    requires 2 <= a < b <= 8
    ensures !IsSegregationIncompatible(a, b)
            <==> (a, b) in {(3, 4), (3, 7), (3, 8), (4, 5), (4, 7), (5, 7), (6, 7), (7, 8)}
  {
  }

  /** A class outside 1 to 9 clashes with nothing. */
  lemma OutsideClasses(a: int, b: int)
    requires !(1 <= a <= 9)
    ensures !IsSegregationIncompatible(a, b) && !IsSegregationIncompatible(b, a)
  {
  }

  // ---- The aggregate ----

  datatype Status = Open | Sealed | Labeled | Diverted

  datatype Error = SegregationViolation | AlreadySealed | NoScannedContents | NotSealed | AlreadyProcessed

  datatype Lane = HazmatLane | FragileNoTilt | Standard

  /** A package as stored; no task id for one sealed before the column existed. */
  datatype Row = Row(
    id: PackageId, order: OrderRef, task: Option<TaskId>, status: Status,
    contents: seq<Sku>, fragile: bool, classes: seq<int>, giftWrap: bool)

  function NewRow(id: PackageId, order: OrderRef, task: Option<TaskId>, fragile: bool, giftWrap: bool): Row {
    Row(id, order, task, Open, [], fragile, [], giftWrap)
  }

  predicate Clashes(hazardClass: int, classes: seq<int>) {
    exists i :: 0 <= i < |classes| && IsSegregationIncompatible(hazardClass, classes[i])
  }

  function ScanResult(p: Row, sku: Sku, hazardClass: int): (Row, Option<Error>) {
    if p.status != Open then (p, Some(AlreadySealed))
    else if hazardClass != 0 && Clashes(hazardClass, p.classes) then (p, Some(SegregationViolation))
    else (p.(contents := p.contents + [sku], classes := if hazardClass != 0 then p.classes + [hazardClass] else p.classes), None)
  }

  function SealResult(p: Row): (Row, Option<Error>) {
    if p.status != Open then (p, Some(AlreadySealed))
    else if p.contents == [] then (p, Some(NoScannedContents))
    else (p.(status := Sealed), None)
  }

  function Distance(a: real, b: real): real {
    if a >= b then a - b else b - a
  }

  /** The weigh check, for a tolerance of 0.05. */
  function WeighResult(p: Row, expected: real, actual: real): (Row, Result<bool, Error>) {
    if p.status == Open then (p, Err(NotSealed))
    else if p.status != Sealed then (p, Err(AlreadyProcessed))
    else if Distance(expected, actual) <= 0.05 then (p.(status := Labeled), Ok(true))
    else (p.(status := Diverted), Ok(false))
  }

  function SortLane(p: Row): Lane {
    if p.classes != [] then HazmatLane else if p.fragile then FragileNoTilt else Standard
  }

  class Package {
    const id: PackageId
    const order: OrderRef
    const task: Option<TaskId>
    const fragile: bool
    const giftWrap: bool
    var status: Status
    var contents: seq<Sku>
    var classes: seq<int>

    function View(): Row
      reads this
    {
      Row(id, order, task, status, contents, fragile, classes, giftWrap)
    }

    constructor New(id: PackageId, order: OrderRef, task: Option<TaskId>, fragile: bool, giftWrap: bool)
      ensures View() == NewRow(id, order, task, fragile, giftWrap)
    {
      this.id, this.order, this.task, this.fragile, this.giftWrap := id, order, task, fragile, giftWrap;
      status, contents, classes := Open, [], [];
    }

    constructor Rehydrate(row: Row)
      ensures View() == row
    {
      id, order, task, fragile, giftWrap := row.id, row.order, row.task, row.fragile, row.giftWrap;
      status, contents, classes := row.status, row.contents, row.classes;
    }

    method ScanItemWithClass(sku: Sku, hazardClass: int) returns (err: Option<Error>)
      modifies this
      ensures (View(), err) == ScanResult(old(View()), sku, hazardClass)
    {
      if status != Open {
        return Some(AlreadySealed);
      }
      if hazardClass != 0 {
        for i := 0 to |classes|
          invariant View() == old(View())
          invariant forall k :: 0 <= k < i ==> !IsSegregationIncompatible(hazardClass, classes[k])
        {
          if IsSegregationIncompatible(hazardClass, classes[i]) {
            return Some(SegregationViolation);
          }
        }
      }
      contents := contents + [sku];
      if hazardClass != 0 {
        classes := classes + [hazardClass];
      }
      return None;
    }

    method Seal() returns (err: Option<Error>)
      modifies this
      ensures (View(), err) == SealResult(old(View()))
    {
      if status != Open {
        return Some(AlreadySealed);
      }
      if |contents| == 0 {
        return Some(NoScannedContents);
      }
      status := Sealed;
      return None;
    }

    method Weigh(expected: real, actual: real) returns (r: Result<bool, Error>)
      modifies this
      ensures (View(), r) == WeighResult(old(View()), expected, actual)
    {
      if status == Open {
        return Err(NotSealed);
      }
      if status != Sealed {
        return Err(AlreadyProcessed);
      }
      var deviation := expected - actual;
      if deviation < 0.0 {
        deviation := -deviation;
      }
      if deviation > 0.05 {
        status := Diverted;
        return Ok(false);
      }
      status := Labeled;
      return Ok(true);
    }
  }

  // ---- Scanning a list of items ----

  datatype Item = Item(sku: Sku, hazardClass: int)

  /** The items scanned in turn, up to the first refusal. */
  function ScanAll(p: Row, items: seq<Item>): (Row, Option<Error>)
    decreases |items|
  {
    if items == [] then (p, None)
    else
      var (p1, err) := ScanResult(p, items[0].sku, items[0].hazardClass);
      if err.Some? then (p1, err) else ScanAll(p1, items[1..])
  }

  function Skus(items: seq<Item>): seq<Sku> {
    if items == [] then [] else [items[0].sku] + Skus(items[1..])
  }

  function HazardClasses(items: seq<Item>): seq<int> {
    if items == [] then []
    else if items[0].hazardClass != 0 then [items[0].hazardClass] + HazardClasses(items[1..])
    else HazardClasses(items[1..])
  }

  /** Every two items of the list may share a package. */
  predicate PairwiseCompatible(classes: seq<int>) {
    forall i, j :: 0 <= i < j < |classes| ==> !IsSegregationIncompatible(classes[i], classes[j])
  }

  lemma PairwiseSnoc(classes: seq<int>, c: int)
    ensures PairwiseCompatible(classes + [c]) <==> PairwiseCompatible(classes) && !Clashes(c, classes)
  {
    var longer := classes + [c];
    assert longer[|classes|] == c;
    forall i | 0 <= i < |classes| ensures longer[i] == classes[i] && IsSegregationIncompatible(c, classes[i]) == IsSegregationIncompatible(classes[i], c) {
      Symmetric(c, classes[i]);
    }
    if PairwiseCompatible(longer) {
      assert forall i, j :: 0 <= i < j < |classes| ==> longer[i] == classes[i] && longer[j] == classes[j];
      assert forall i :: 0 <= i < |classes| ==> !IsSegregationIncompatible(longer[i], longer[|classes|]);
    }
  }

  lemma PairwisePrefix(classes: seq<int>, more: seq<int>)
    requires PairwiseCompatible(classes + more)
    ensures PairwiseCompatible(classes)
  {
    assert forall i :: 0 <= i < |classes| ==> (classes + more)[i] == classes[i];
  }

  function OneClass(hazardClass: int): seq<int> {
    if hazardClass != 0 then [hazardClass] else []
  }

  lemma OneScan(p: Row, item: Item)
    requires p.status == Open && PairwiseCompatible(p.classes)
    ensures var (p', err) := ScanResult(p, item.sku, item.hazardClass);
            && (err == None <==> PairwiseCompatible(p.classes + OneClass(item.hazardClass)))
            && (err == None ==> p' == p.(contents := p.contents + [item.sku], classes := p.classes + OneClass(item.hazardClass)))
            && (err != None ==> err == Some(SegregationViolation) && p' == p)
  {
    PairwiseSnoc(p.classes, item.hazardClass);
    assert p.classes + [] == p.classes;
  }

  /** What scanning a list comes to, for one more list in front. */
  predicate Accepts(p: Row, skus: seq<Sku>, classes: seq<int>, result: (Row, Option<Error>)) {
    && (result.1 == None <==> PairwiseCompatible(p.classes + classes))
    && (result.1 == None ==> result.0 == p.(contents := p.contents + skus, classes := p.classes + classes))
    && (result.1 != None ==> result.1 == Some(SegregationViolation))
  }

  lemma AcceptsAfter(p: Row, p1: Row, sku: Sku, one: seq<int>, skus: seq<Sku>, rest: seq<int>, result: (Row, Option<Error>))
    requires p1 == p.(contents := p.contents + [sku], classes := p.classes + one)
    requires Accepts(p1, skus, rest, result)
    ensures Accepts(p, [sku] + skus, one + rest, result)
  {
    assert p.classes + (one + rest) == p1.classes + rest;
    assert p.contents + ([sku] + skus) == p1.contents + skus;
  }

  /** A list scans into an open package if and only if all the classes, scanned before and now, are pairwise compatible. */
  lemma {:induction false} ScanAcceptsExactlyWhen(p: Row, items: seq<Item>)
    requires p.status == Open && PairwiseCompatible(p.classes)
    ensures Accepts(p, Skus(items), HazardClasses(items), ScanAll(p, items))
    decreases |items|
  {
    if items == [] {
      assert p.classes + [] == p.classes && p.contents + [] == p.contents;
    } else {
      var one := OneClass(items[0].hazardClass);
      var rest := HazardClasses(items[1..]);
      assert HazardClasses(items) == one + rest;
      OneScan(p, items[0]);
      var (p1, err) := ScanResult(p, items[0].sku, items[0].hazardClass);
      if err == None {
        ScanAcceptsExactlyWhen(p1, items[1..]);
        AcceptsAfter(p, p1, items[0].sku, one, Skus(items[1..]), rest, ScanAll(p1, items[1..]));
      } else {
        assert p.classes + (one + rest) == p.classes + one + rest;
        NotPairwise(p.classes + one, rest);
      }
    }
  }

  lemma NotPairwise(classes: seq<int>, more: seq<int>)
    requires !PairwiseCompatible(classes)
    ensures !PairwiseCompatible(classes + more)
  {
    if PairwiseCompatible(classes + more) {
      PairwisePrefix(classes, more);
    }
  }

  lemma PairwiseCons(c: int, classes: seq<int>)
    ensures PairwiseCompatible([c] + classes) <==> PairwiseCompatible(classes) && !Clashes(c, classes)
  {
    var longer := [c] + classes;
    assert forall i :: 0 <= i < |classes| ==> longer[i + 1] == classes[i];
    if PairwiseCompatible(longer) {
      forall i, j | 0 <= i < j < |classes| ensures !IsSegregationIncompatible(classes[i], classes[j]) {
        assert !IsSegregationIncompatible(longer[i + 1], longer[j + 1]);
      }
      forall i | 0 <= i < |classes| ensures !IsSegregationIncompatible(c, classes[i]) {
        assert !IsSegregationIncompatible(longer[0], longer[i + 1]);
      }
    }
  }

  predicate ItemsCompatible(items: seq<Item>) {
    forall i, j :: 0 <= i < j < |items| ==> !IsSegregationIncompatible(items[i].hazardClass, items[j].hazardClass)
  }

  predicate ClashesWithItems(c: int, items: seq<Item>) {
    exists i :: 0 <= i < |items| && IsSegregationIncompatible(c, items[i].hazardClass)
  }

  lemma {:induction false} ClashesByItem(c: int, items: seq<Item>)
    ensures Clashes(c, HazardClasses(items)) <==> ClashesWithItems(c, items)
    decreases |items|
  {
    if items != [] {
      var x, rest := items[0].hazardClass, items[1..];
      ClashesByItem(c, rest);
      assert items == [items[0]] + rest;
      assert ClashesWithItems(c, items) <==> IsSegregationIncompatible(c, x) || ClashesWithItems(c, rest) by {
        assert forall i :: 0 <= i < |rest| ==> items[i + 1] == rest[i];
      }
      if x != 0 {
        var longer := HazardClasses(items);
        assert longer == [x] + HazardClasses(rest);
        assert forall i :: 0 <= i < |HazardClasses(rest)| ==> longer[i + 1] == HazardClasses(rest)[i];
        assert longer[0] == x;
      }
    }
  }

  /** The recorded classes are compatible exactly when the items are, two by two: an item without a class goes with everything. */
  lemma {:induction false} CompatibleByItem(items: seq<Item>)
    ensures PairwiseCompatible(HazardClasses(items)) <==> ItemsCompatible(items)
    decreases |items|
  {
    if items != [] {
      var x, rest := items[0].hazardClass, items[1..];
      CompatibleByItem(rest);
      ClashesByItem(x, rest);
      PairwiseCons(x, HazardClasses(rest));
      ItemsCompatibleCons(items);
    }
  }

  lemma ItemsCompatibleCons(items: seq<Item>)
    requires items != []
    ensures ItemsCompatible(items) <==> ItemsCompatible(items[1..]) && !ClashesWithItems(items[0].hazardClass, items[1..])
  {
    var rest := items[1..];
    if ItemsCompatible(items) {
      forall i, j | 0 <= i < j < |rest| ensures !IsSegregationIncompatible(rest[i].hazardClass, rest[j].hazardClass) {
        assert !IsSegregationIncompatible(items[i + 1].hazardClass, items[j + 1].hazardClass);
      }
      forall i | 0 <= i < |rest| ensures !IsSegregationIncompatible(items[0].hazardClass, rest[i].hazardClass) {
        assert !IsSegregationIncompatible(items[0].hazardClass, items[i + 1].hazardClass);
      }
    }
    if ItemsCompatible(rest) && !ClashesWithItems(items[0].hazardClass, rest) {
      forall i, j | 0 <= i < j < |items| ensures !IsSegregationIncompatible(items[i].hazardClass, items[j].hazardClass) {
        assert items[j] == rest[j - 1] && (i > 0 ==> items[i] == rest[i - 1]);
      }
    }
  }

  /** Compatibility by values and their number alone. */
  predicate MutuallyCompatible(classes: multiset<int>) {
    forall a, b :: a in classes && b in classes && (a != b || classes[a] >= 2) ==> !IsSegregationIncompatible(a, b)
  }

  lemma MutuallySnoc(classes: multiset<int>, c: int)
    ensures MutuallyCompatible(classes + multiset{c})
            <==> MutuallyCompatible(classes) && forall a :: a in classes ==> !IsSegregationIncompatible(c, a)
  {
  }

  lemma {:induction false} PairwiseIsMutual(classes: seq<int>)
    ensures PairwiseCompatible(classes) <==> MutuallyCompatible(multiset(classes))
  {
    if classes != [] {
      var front, last := classes[..|classes| - 1], classes[|classes| - 1];
      assert classes == front + [last];
      PairwiseIsMutual(front);
      PairwiseSnoc(front, last);
      MutuallySnoc(multiset(front), last);
      assert multiset(classes) == multiset(front) + multiset{last};
      assert Clashes(last, front) <==> exists a :: a in multiset(front) && IsSegregationIncompatible(last, a) by {
        if a :| a in multiset(front) && IsSegregationIncompatible(last, a) {
          var i :| 0 <= i < |front| && front[i] == a;
        }
        if Clashes(last, front) {
          var i :| 0 <= i < |front| && IsSegregationIncompatible(last, front[i]);
          assert front[i] in multiset(front);
        }
      }
    }
  }

  lemma {:induction false} ClassesAppend(a: seq<Item>, b: seq<Item>)
    ensures HazardClasses(a + b) == HazardClasses(a) + HazardClasses(b)
    ensures Skus(a + b) == Skus(a) + Skus(b)
    decreases |a|
  {
    if a == [] {
      assert a + b == b;
    } else {
      var one := OneClass(a[0].hazardClass);
      assert (a + b)[0] == a[0] && (a + b)[1..] == a[1..] + b;
      ClassesAppend(a[1..], b);
      assert HazardClasses(a) == one + HazardClasses(a[1..]);
      assert HazardClasses(a + b) == one + HazardClasses((a + b)[1..]);
      assert one + HazardClasses(a[1..]) + HazardClasses(b) == one + (HazardClasses(a[1..]) + HazardClasses(b));
      assert [a[0].sku] + Skus(a[1..]) + Skus(b) == [a[0].sku] + (Skus(a[1..]) + Skus(b));
    }
  }

  lemma DropSame<T>(x: T, rest: seq<T>, front: seq<T>, tail: seq<T>)
    requires multiset([x] + rest) == multiset(front + ([x] + tail))
    ensures multiset(rest) == multiset(front + tail)
  {
    assert multiset([x] + rest) == multiset{x} + multiset(rest);
    assert multiset(front + ([x] + tail)) == multiset{x} + multiset(front + tail);
    assert multiset(rest) == multiset([x] + rest) - multiset{x};
    assert multiset(front + tail) == multiset(front + ([x] + tail)) - multiset{x};
  }

  lemma ClassesOfMiddle(front: seq<Item>, x: Item, tail: seq<Item>)
    ensures multiset(HazardClasses(front + ([x] + tail))) == multiset(HazardClasses([x] + (front + tail)))
    ensures multiset(Skus(front + ([x] + tail))) == multiset(Skus([x] + (front + tail)))
  {
    ClassesAppend(front, [x] + tail);
    ClassesAppend([x], tail);
    ClassesAppend(front, tail);
    ClassesAppend([x], front + tail);
  }

  lemma {:induction false} ClassesOfPermutation(a: seq<Item>, b: seq<Item>)
    requires multiset(a) == multiset(b)
    ensures multiset(HazardClasses(a)) == multiset(HazardClasses(b))
    ensures multiset(Skus(a)) == multiset(Skus(b))
    decreases |a|
  {
    if a == [] {
      assert |multiset(b)| == 0;
    } else {
      var x := a[0];
      assert x in multiset(b);
      var k :| 0 <= k < |b| && b[k] == x;
      var front, tail := b[..k], b[k + 1..];
      assert a == [x] + a[1..] && b == front + ([x] + tail);
      DropSame(x, a[1..], front, tail);
      ClassesOfPermutation(a[1..], front + tail);
      ClassesAppend([x], a[1..]);
      ClassesAppend([x], front + tail);
      ClassesOfMiddle(front, x, tail);
    }
  }

  /** Whether a list scans, and what the package then holds up to order, does not depend on the scanning order. */
  lemma ScanOrderIsIrrelevant(p: Row, a: seq<Item>, b: seq<Item>)
    requires p.status == Open && PairwiseCompatible(p.classes) && multiset(a) == multiset(b)
    ensures var (pa, errA) := ScanAll(p, a);
            var (pb, errB) := ScanAll(p, b);
            && errA == errB
            && (errA == None ==> multiset(pa.contents) == multiset(pb.contents) && multiset(pa.classes) == multiset(pb.classes)
                                 && SortLane(pa) == SortLane(pb))
  {
    ScanAcceptsExactlyWhen(p, a);
    ScanAcceptsExactlyWhen(p, b);
    ClassesOfPermutation(a, b);
    PairwiseIsMutual(p.classes + HazardClasses(a));
    PairwiseIsMutual(p.classes + HazardClasses(b));
    EmptyTogether(HazardClasses(a), HazardClasses(b));
  }

  /** Where a package scanned from empty goes: to the hazmat lane if any item had a class, else by its fragility. */
  lemma LaneByContents(id: PackageId, order: OrderRef, task: Option<TaskId>, fragile: bool, giftWrap: bool, items: seq<Item>)
    requires ScanAll(NewRow(id, order, task, fragile, giftWrap), items).1 == None
    ensures var lane := SortLane(ScanAll(NewRow(id, order, task, fragile, giftWrap), items).0);
            && (lane == HazmatLane <==> exists i :: 0 <= i < |items| && items[i].hazardClass != 0)
            && (lane == FragileNoTilt <==> fragile && forall i :: 0 <= i < |items| ==> items[i].hazardClass == 0)
  {
    ScanAcceptsExactlyWhen(NewRow(id, order, task, fragile, giftWrap), items);
    assert [] + HazardClasses(items) == HazardClasses(items);
    NoClasses(items);
  }

  lemma {:induction false} NoClasses(items: seq<Item>)
    ensures HazardClasses(items) == [] <==> forall i :: 0 <= i < |items| ==> items[i].hazardClass == 0
    decreases |items|
  {
    if items != [] {
      NoClasses(items[1..]);
      assert forall i :: 0 < i < |items| ==> items[i] == items[1..][i - 1];
    }
  }

  lemma EmptyTogether(a: seq<int>, b: seq<int>)
    requires multiset(a) == multiset(b)
    ensures a == [] <==> b == []
  {
    assert |multiset(a)| == |a| && |multiset(b)| == |b|;
  }

  // ---- Every reachable package ----

  datatype Op = Scan(item: Item) | SealIt | WeighIt(expected: real, actual: real)

  function Do(p: Row, op: Op): Row {
    match op
    case Scan(item) => ScanResult(p, item.sku, item.hazardClass).0
    case SealIt => SealResult(p).0
    case WeighIt(expected, actual) => WeighResult(p, expected, actual).0
  }

  function Run(p: Row, ops: seq<Op>): Row {
    if ops == [] then p else Do(Run(p, ops[..|ops| - 1]), ops[|ops| - 1])
  }

  /** Pairwise compatible contents, no class 0 on record, and nothing leaves Open empty. */
  predicate Sound(p: Row) {
    && PairwiseCompatible(p.classes)
    && (forall i :: 0 <= i < |p.classes| ==> p.classes[i] != 0)
    && |p.classes| <= |p.contents|
    && (p.status != Open ==> p.contents != [])
  }

  lemma DoKeepsSound(p: Row, op: Op)
    requires Sound(p)
    ensures Sound(Do(p, op))
    ensures p.status != Open ==> Do(p, op).contents == p.contents && Do(p, op).classes == p.classes && Do(p, op).status != Open
    ensures p.status == Labeled || p.status == Diverted ==> Do(p, op) == p
  {
    if op.Scan? {
      PairwiseSnoc(p.classes, op.item.hazardClass);
    }
  }

  /** In every package reachable from a new or a stored sound one the contents are pairwise compatible. */
  lemma {:induction false} ReachableIsSound(p: Row, ops: seq<Op>)
    requires Sound(p)
    ensures Sound(Run(p, ops))
  {
    if ops != [] {
      ReachableIsSound(p, ops[..|ops| - 1]);
      DoKeepsSound(Run(p, ops[..|ops| - 1]), ops[|ops| - 1]);
    }
  }

  /** From the seal on the contents are what they were, and a weighed package never changes again. */
  lemma {:induction false} SealedContentsStay(p: Row, ops: seq<Op>)
    requires Sound(p) && p.status != Open
    ensures Run(p, ops).contents == p.contents && Run(p, ops).classes == p.classes && Run(p, ops).status != Open
    ensures p.status != Sealed ==> Run(p, ops) == p
  {
    if ops != [] {
      SealedContentsStay(p, ops[..|ops| - 1]);
      ReachableIsSound(p, ops[..|ops| - 1]);
      DoKeepsSound(Run(p, ops[..|ops| - 1]), ops[|ops| - 1]);
    }
  }

  /** A recorded explosive is the only class on record, in every sound package. */
  lemma ExplosivesTravelAlone(p: Row, i: nat)
    requires Sound(p) && i < |p.classes| && p.classes[i] == 1
    requires forall k :: 0 <= k < |p.classes| ==> 1 <= p.classes[k] <= 9
    ensures |p.classes| == 1
  {
    if |p.classes| > 1 {
      var lo, hi := 0, if i == 0 then 1 else i;
      DocumentedRules(p.classes[lo]);
      DocumentedRules(p.classes[hi]);
      Symmetric(p.classes[lo], p.classes[hi]);
    }
  }
}

/**
 Rebin fan-in (internal/application/usecases/arrive_at_rebin.go, internal/domain/consolidation): an order's lines
 arrive one by one, and the arrival that completes the required set creates the order's PACK task.

 One call is one atomic step: two concurrent arrivals of one order are a read and a blind upsert each, and the source
 promises nothing about them.
 */
module Rebin {
  import opened Prelude
  import Tasks

  type OrderRef = Tasks.OrderRef
  type Line = nat

  // ---- The aggregate ----

  datatype Record = Record(required: set<Line>, arrived: set<Line>)

  function SetOf(lines: seq<Line>): set<Line> {
    set i | 0 <= i < |lines| :: lines[i]
  }

  lemma SetOfSnoc(lines: seq<Line>, line: Line)
    ensures SetOf(lines + [line]) == SetOf(lines) + {line}
  {
    var longer := lines + [line];
    assert longer[|lines|] == line;
    assert forall i :: 0 <= i < |lines| ==> longer[i] == lines[i];
  }

  class OrderConsolidation {
    var orderRef: OrderRef
    var requiredLines: set<Line>
    var arrivedLines: set<Line>

    function View(): Record
      reads this
    {
      Record(requiredLines, arrivedLines)
    }

    constructor (orderRef: OrderRef, requiredLineIds: seq<Line>)
      ensures this.orderRef == orderRef && View() == Record(SetOf(requiredLineIds), {})
    {
      this.orderRef := orderRef;
      requiredLines, arrivedLines := {}, {};
      new;
      for i := 0 to |requiredLineIds|
        invariant this.orderRef == orderRef && arrivedLines == {}
        invariant requiredLines == SetOf(requiredLineIds[..i])
      {
        requiredLines := requiredLines + {requiredLineIds[i]};
      }
      assert requiredLineIds[..|requiredLineIds|] == requiredLineIds;
    }

    constructor Rehydrate(orderRef: OrderRef, requiredLineIds: seq<Line>, arrivedLineIds: seq<Line>)
      ensures this.orderRef == orderRef && View() == Record(SetOf(requiredLineIds), SetOf(arrivedLineIds))
    {
      this.orderRef := orderRef;
      requiredLines := SetOf(requiredLineIds);
      arrivedLines := {};
      new;
      for i := 0 to |arrivedLineIds|
        invariant this.orderRef == orderRef && requiredLines == SetOf(requiredLineIds)
        invariant arrivedLines == SetOf(arrivedLineIds[..i])
      {
        arrivedLines := arrivedLines + {arrivedLineIds[i]};
      }
      assert arrivedLineIds[..|arrivedLineIds|] == arrivedLineIds;
    }

    /** Answers whether the line belongs to the order; an arrival of a line already there changes nothing. */
    method RecordArrival(line: Line) returns (ok: bool)
      modifies this`arrivedLines
      ensures ok == (line in requiredLines)
      ensures View() == old(View()).(arrived := if ok then old(arrivedLines) + {line} else old(arrivedLines))
    {
      if line !in requiredLines {
        return false;
      }
      arrivedLines := arrivedLines + {line};
      return true;
    }

    predicate IsComplete()
      reads this
    {
      |arrivedLines| == |requiredLines|
    }
  }

  /** Comparing sizes is enough: lines that are not required never get in. */
  lemma SizesDecide(r: Record)
    requires r.arrived <= r.required
    ensures |r.arrived| == |r.required| <==> r.arrived == r.required
  {
    if missing :| missing in r.required && missing !in r.arrived {
      SmallerSubset(r.arrived, r.required - {missing});
    }
  }

  lemma {:induction false} SmallerSubset(a: set<Line>, b: set<Line>)
    requires a <= b
    ensures |a| <= |b|
    decreases a
  {
    if x :| x in a {
      SmallerSubset(a - {x}, b - {x});
    }
  }

  // ---- One call ----

  // What the PACK task carries besides its order: CPT, capabilities and packing hints, as the caller supplied them.
  type PackHints = nat

  datatype PackTask = PackTask(order: OrderRef, hints: PackHints)

  datatype Event =
    | ItemArrived(order: OrderRef, line: Line)
    | TaskCreated(order: OrderRef)
    | OrderConsolidated(order: OrderRef)

  datatype Db = Db(orders: map<OrderRef, Record>, packs: seq<PackTask>, events: seq<Event>)

  datatype Call = Call(order: OrderRef, line: Line, required: seq<Line>, hints: PackHints, fault: Fault)

  /** Where a call fails. CommitUnknown takes effect and still reports an error. */
  datatype Fault =
    | NoFault | FindFails | CannotBegin | SaveFails | ArrivalPublishFails
    | TaskSaveFails | TaskPublishFails | ConsolidatedPublishFails
    | CommitLost | CommitUnknown

  datatype Error = NotFound | UnknownLine | Failure

  const Empty: Db := Db(map[], [], [])

  /** The record a call finds, or the one it would start. */
  function Loaded(db: Db, call: Call): Record {
    if call.order in db.orders then db.orders[call.order] else Record(SetOf(call.required), {})
  }

  predicate Full(r: Record) {
    |r.arrived| == |r.required|
  }

  /** The writes a call makes up to its failure, and whether it got through all of them. */
  function Written(db: Db, call: Call, oc: Record): (Db, bool) {
    if call.fault == SaveFails then (db, false)
    else
      var saved := db.(orders := db.orders[call.order := oc]);
      if call.fault == ArrivalPublishFails then (saved, false)
      else
        var told := saved.(events := saved.events + [ItemArrived(call.order, call.line)]);
        if !Full(oc) then (told, true)
        else if call.fault == TaskSaveFails then (told, false)
        else
          var packed := told.(packs := told.packs + [PackTask(call.order, call.hints)]);
          if call.fault == TaskPublishFails then (packed, false)
          else
            var created := packed.(events := packed.events + [TaskCreated(call.order)]);
            if call.fault == ConsolidatedPublishFails then (created, false)
            else (created.(events := created.events + [OrderConsolidated(call.order)]), true)
  }

  /** One call, inside a transaction or with its writes back to back. */
  function ArriveResult(db: Db, call: Call, transactional: bool): (Db, Option<Error>) {
    if call.fault == FindFails then (db, Some(Failure))
    else
      var oc := Loaded(db, call);
      if call.line !in oc.required then (db, Some(UnknownLine))
      else if Full(oc) then (db, None)
      else
        var (written, ok) := Written(db, call, oc.(arrived := oc.arrived + {call.line}));
        if !transactional then (written, if ok then None else Some(Failure))
        else if call.fault == CannotBegin || !ok || call.fault == CommitLost then (db, Some(Failure))
        else (written, if call.fault == CommitUnknown then Some(Failure) else None)
  }

  class ArriveAtRebin {
    var db: Db
    const transactional: bool

    constructor (transactional: bool)
      ensures db == Empty && this.transactional == transactional
    {
      db, this.transactional := Empty, transactional;
    }

    method FindByOrderRef(order: OrderRef) returns (oc: OrderConsolidation?)
      ensures oc == null <==> order !in db.orders
      ensures oc != null ==> fresh(oc) && oc.orderRef == order && oc.View() == db.orders[order]
    {
      if order !in db.orders {
        return null;
      }
      var required := ListOf(db.orders[order].required);
      var arrived := ListOf(db.orders[order].arrived);
      oc := new OrderConsolidation.Rehydrate(order, required, arrived);
    }

    method Execute(call: Call) returns (err: Option<Error>)
      modifies this
      ensures (db, err) == ArriveResult(old(db), call, transactional)
    {
      if call.fault == FindFails {
        return Some(Failure);
      }
      var oc := FindByOrderRef(call.order);
      if oc == null {
        oc := new OrderConsolidation(call.order, call.required);
      }
      var wasAlreadyComplete := oc.IsComplete();
      var known := oc.RecordArrival(call.line);
      if !known {
        return Some(UnknownLine);
      }
      if wasAlreadyComplete {
        return None;
      }
      var before := db;
      if transactional && call.fault == CannotBegin {
        return Some(Failure);
      }
      var ok := WriteAll(call, oc);
      if transactional && (!ok || call.fault == CommitLost) {
        db := before;
        return Some(Failure);
      }
      return if !ok || (transactional && call.fault == CommitUnknown) then Some(Failure) else None;
    }

    /** The body of the scope: save, publish, and on the completing arrival create the PACK task and publish again. */
    method WriteAll(call: Call, oc: OrderConsolidation) returns (ok: bool)
      modifies this
      ensures (db, ok) == Written(old(db), call, oc.View())
    {
      if call.fault == SaveFails {
        return false;
      }
      db := db.(orders := db.orders[call.order := oc.View()]);
      if call.fault == ArrivalPublishFails {
        return false;
      }
      db := db.(events := db.events + [ItemArrived(call.order, call.line)]);
      if !oc.IsComplete() {
        return true;
      }
      if call.fault == TaskSaveFails {
        return false;
      }
      db := db.(packs := db.packs + [PackTask(call.order, call.hints)]);
      if call.fault == TaskPublishFails {
        return false;
      }
      db := db.(events := db.events + [TaskCreated(call.order)]);
      if call.fault == ConsolidatedPublishFails {
        return false;
      }
      db := db.(events := db.events + [OrderConsolidated(call.order)]);
      return true;
    }
  }

  /** The lines of a set as a list, in no particular order (RequiredLineIds, ArrivedLineIds). */
  method ListOf(lines: set<Line>) returns (list: seq<Line>)
    ensures SetOf(list) == lines && |list| == |lines|
  {
    list := [];
    var left := lines;
    while left != {}
      invariant left <= lines && SetOf(list) == lines - left && |list| + |left| == |lines|
      decreases left
    {
      var x :| x in left;
      SetOfSnoc(list, x);
      list := list + [x];
      left := left - {x};
    }
  }

  // ---- All runs ----

  function Run(calls: seq<Call>, transactional: bool): Db {
    if calls == [] then Empty
    else ArriveResult(Run(calls[..|calls| - 1], transactional), calls[|calls| - 1], transactional).0
  }

  /** Whether a call's transaction commits, once it is known whether its arrival completes the order. */
  predicate Survives(fault: Fault, completes: bool) {
    match fault
    case NoFault => true
    case CommitUnknown => true
    case TaskSaveFails => !completes
    case TaskPublishFails => !completes
    case ConsolidatedPublishFails => !completes
    case _ => false
  }

  /** A call that arrives at an order that is not complete yet, and commits. */
  predicate Commits(call: Call, r: Record) {
    call.line in r.required && r.arrived != r.required && Survives(call.fault, r.arrived + {call.line} == r.required)
  }

  /**
   The history of one order by set equality alone: the required lines of the first call that committed, and the
   lines whose arrival has committed since.
   */
  function History(calls: seq<Call>, order: OrderRef): Option<Record> {
    if calls == [] then None
    else Extended(History(calls[..|calls| - 1], order), calls[|calls| - 1], order)
  }

  function Extended(h: Option<Record>, call: Call, order: OrderRef): Option<Record> {
    var r := if h.Some? then h.value else Record(SetOf(call.required), {});
    if call.order == order && Commits(call, r) then Some(r.(arrived := r.arrived + {call.line})) else h
  }

  predicate Consolidated(h: Option<Record>) {
    h.Some? && h.value.arrived == h.value.required
  }

  function PacksOf(packs: seq<PackTask>, order: OrderRef): nat {
    if packs == [] then 0
    else PacksOf(packs[..|packs| - 1], order) + if packs[|packs| - 1].order == order then 1 else 0
  }

  function AnnouncementsOf(events: seq<Event>, order: OrderRef): nat {
    if events == [] then 0
    else
      AnnouncementsOf(events[..|events| - 1], order)
      + if events[|events| - 1] == OrderConsolidated(order) then 1 else 0
  }

  lemma PacksSnoc(packs: seq<PackTask>, p: PackTask, order: OrderRef)
    ensures PacksOf(packs + [p], order) == PacksOf(packs, order) + if p.order == order then 1 else 0
  {
    assert (packs + [p])[..|packs|] == packs;
  }

  /** The stored record of an order, its PACK tasks and its announcements, all told by its history. */
  predicate Agrees(db: Db, order: OrderRef, h: Option<Record>) {
    && (h.None? <==> order !in db.orders)
    && (h.Some? ==> db.orders[order] == h.value && h.value.arrived <= h.value.required && h.value.arrived != {})
    && PacksOf(db.packs, order) == (if Consolidated(h) then 1 else 0)
    && AnnouncementsOf(db.events, order) == (if Consolidated(h) then 1 else 0)
  }

  lemma CompletionAnnounces(events: seq<Event>, call: Call, order: OrderRef)
    ensures AnnouncementsOf(events + [ItemArrived(call.order, call.line)], order) == AnnouncementsOf(events, order)
    ensures AnnouncementsOf(events + [ItemArrived(call.order, call.line)] + [TaskCreated(call.order)] + [OrderConsolidated(call.order)], order)
            == AnnouncementsOf(events, order) + if call.order == order then 1 else 0
  {
  }

  /** All the writes of a call that got through. */
  function Whole(db: Db, call: Call, oc: Record): Db {
    var told := db.events + [ItemArrived(call.order, call.line)];
    if Full(oc) then
      Db(db.orders[call.order := oc], db.packs + [PackTask(call.order, call.hints)],
         told + [TaskCreated(call.order)] + [OrderConsolidated(call.order)])
    else Db(db.orders[call.order := oc], db.packs, told)
  }

  lemma WrittenIsWhole(db: Db, call: Call, oc: Record)
    requires Written(db, call, oc).1
    ensures Written(db, call, oc).0 == Whole(db, call, oc)
  {
  }

  /** What a committed arrival adds. */
  lemma WrittenAdds(db: Db, call: Call, oc: Record, order: OrderRef)
    requires Written(db, call, oc).1
    ensures var written := Written(db, call, oc).0;
            var added := if Full(oc) && call.order == order then 1 else 0;
            && written.orders == db.orders[call.order := oc]
            && PacksOf(written.packs, order) == PacksOf(db.packs, order) + added
            && AnnouncementsOf(written.events, order) == AnnouncementsOf(db.events, order) + added
  {
    WrittenIsWhole(db, call, oc);
    PacksSnoc(db.packs, PackTask(call.order, call.hints), order);
    CompletionAnnounces(db.events, call, order);
  }

  /** What a call does: nothing, or exactly a committed arrival. */
  lemma CallDoes(db: Db, call: Call)
    requires call.order in db.orders ==> db.orders[call.order].arrived <= db.orders[call.order].required
    ensures var oc := Loaded(db, call);
            ArriveResult(db, call, true).0
            == if Commits(call, oc) then Written(db, call, oc.(arrived := oc.arrived + {call.line})).0 else db
    ensures var oc := Loaded(db, call);
            Commits(call, oc) ==> Written(db, call, oc.(arrived := oc.arrived + {call.line})).1
  {
    var oc := Loaded(db, call);
    SizesDecide(oc);
    if call.line in oc.required {
      SizesDecide(oc.(arrived := oc.arrived + {call.line}));
    }
  }

  lemma StepAgrees(db: Db, call: Call, order: OrderRef, h: Option<Record>)
    requires Agrees(db, order, h)
    requires call.order in db.orders ==> db.orders[call.order].arrived <= db.orders[call.order].required
    ensures Agrees(ArriveResult(db, call, true).0, order, Extended(h, call, order))
  {
    CallDoes(db, call);
    var oc := Loaded(db, call);
    if Commits(call, oc) {
      var oc' := oc.(arrived := oc.arrived + {call.line});
      SizesDecide(oc');
      WrittenAdds(db, call, oc', order);
    }
  }

  lemma {:induction false} RunAgrees(calls: seq<Call>, order: OrderRef)
    ensures Agrees(Run(calls, true), order, History(calls, order))
  {
    if calls != [] {
      var front := calls[..|calls| - 1];
      RunAgrees(front, order);
      RunAgrees(front, calls[|calls| - 1].order);
      StepAgrees(Run(front, true), calls[|calls| - 1], order, History(front, order));
    }
  }

  /**
   Over any sequence of calls, with lines in any order, duplicates, unknown lines, disagreeing required sets and
   failures anywhere: an order has one PACK task exactly when the committed arrivals are the required set, and
   otherwise none.
   */
  lemma OnePackExactlyWhenComplete(calls: seq<Call>, order: OrderRef)
    ensures PacksOf(Run(calls, true).packs, order) == if Consolidated(History(calls, order)) then 1 else 0
    ensures AnnouncementsOf(Run(calls, true).events, order) == PacksOf(Run(calls, true).packs, order)
  {
    RunAgrees(calls, order);
  }

  lemma PacksWritten(db: Db, call: Call, oc: Record)
    requires Written(db, call, oc).1
    ensures Written(db, call, oc).0.packs == if Full(oc) then db.packs + [PackTask(call.order, call.hints)] else db.packs
  {
  }

  /** The PACK task appears in the very call whose arrival makes the two sets equal, and carries that call's hints. */
  lemma PackComesWithTheLastLine(calls: seq<Call>, call: Call)
    ensures var before := History(calls, call.order);
            var after := Extended(before, call, call.order);
            ArriveResult(Run(calls, true), call, true).0.packs
            == if !Consolidated(before) && Consolidated(after) then Run(calls, true).packs + [PackTask(call.order, call.hints)]
               else Run(calls, true).packs
  {
    RunAgrees(calls, call.order);
    var db := Run(calls, true);
    CallDoes(db, call);
    var oc := Loaded(db, call);
    if Commits(call, oc) {
      var oc' := oc.(arrived := oc.arrived + {call.line});
      SizesDecide(oc');
      PacksWritten(db, call, oc');
    }
  }

  // ---- Arrival order does not matter ----

  function LinesOf(calls: seq<Call>, order: OrderRef): set<Line> {
    set i | 0 <= i < |calls| && calls[i].order == order :: calls[i].line
  }

  lemma LinesSnoc(calls: seq<Call>, call: Call, order: OrderRef)
    ensures LinesOf(calls + [call], order) == LinesOf(calls, order) + if call.order == order then {call.line} else {}
  {
    var longer := calls + [call];
    assert longer[|calls|] == call;
    assert forall i :: 0 <= i < |calls| ==> longer[i] == calls[i];
  }

  lemma {:induction false} HistoryIsTheSet(calls: seq<Call>, order: OrderRef, required: set<Line>)
    requires forall i :: 0 <= i < |calls| ==> calls[i].fault == NoFault
    requires forall i :: 0 <= i < |calls| && calls[i].order == order ==> SetOf(calls[i].required) == required
    ensures History(calls, order)
            == if LinesOf(calls, order) * required == {} then None
               else Some(Record(required, LinesOf(calls, order) * required))
  {
    if calls != [] {
      var front := calls[..|calls| - 1];
      var last := calls[|calls| - 1];
      HistoryIsTheSet(front, order, required);
      assert calls == front + [last];
      LinesSnoc(front, last, order);
      var known := LinesOf(front, order) * required;
      if last.order == order && last.line in required {
        assert LinesOf(calls, order) * required == known + {last.line};
        assert last.line in LinesOf(calls, order) * required;
        assert SetOf(last.required) == required;
        assert known == {} ==> {} + {last.line} == known + {last.line};
        assert known == required ==> known + {last.line} == known;
      } else {
        assert LinesOf(calls, order) * required == known;
      }
    }
  }

  /**
   When nothing fails and the callers agree on the required lines, the PACK task exists exactly when every required
   line is among the arrivals: their order and repetitions do not matter.
   */
  lemma ArrivalOrderIsIrrelevant(calls: seq<Call>, order: OrderRef, required: set<Line>)
    requires forall i :: 0 <= i < |calls| ==> calls[i].fault == NoFault
    requires forall i :: 0 <= i < |calls| && calls[i].order == order ==> SetOf(calls[i].required) == required
    ensures PacksOf(Run(calls, true).packs, order) == if required != {} && required <= LinesOf(calls, order) then 1 else 0
  {
    OnePackExactlyWhenComplete(calls, order);
    HistoryIsTheSet(calls, order, required);
    assert required <= LinesOf(calls, order) <==> LinesOf(calls, order) * required == required;
  }

  // ---- Without a unit of work ----

  /** A complete order without a PACK task. */
  predicate Stuck(db: Db, order: OrderRef) {
    order in db.orders && Full(db.orders[order]) && PacksOf(db.packs, order) == 0
  }

  lemma StuckStep(db: Db, call: Call, transactional: bool, order: OrderRef)
    requires Stuck(db, order)
    ensures Stuck(ArriveResult(db, call, transactional).0, order)
  {
    var oc := Loaded(db, call);
    WrittenSoFar(db, call, oc.(arrived := oc.arrived + {call.line}));
    PacksSnoc(db.packs, PackTask(call.order, call.hints), order);
  }

  /** How far the writes got: the record unless its save failed, and the PACK task only past three more failures. */
  lemma WrittenSoFar(db: Db, call: Call, oc: Record)
    ensures var written := Written(db, call, oc).0;
            && written.orders == (if call.fault == SaveFails then db.orders else db.orders[call.order := oc])
            && written.packs == if !Full(oc) || call.fault == SaveFails || call.fault == ArrivalPublishFails || call.fault == TaskSaveFails
                                then db.packs else db.packs + [PackTask(call.order, call.hints)]
  {
  }

  /** Without a transactional scope a call strands its order exactly when the completing arrival was saved and the PACK task was not. */
  lemma StrandsExactlyWhen(db: Db, call: Call)
    requires call.order in db.orders ==> db.orders[call.order].arrived <= db.orders[call.order].required
    requires PacksOf(db.packs, call.order) == 0 && !Stuck(db, call.order)
    ensures var oc := Loaded(db, call);
            Stuck(ArriveResult(db, call, false).0, call.order)
            <==> && call.line in oc.required && oc.arrived != oc.required && oc.arrived + {call.line} == oc.required
                 && (call.fault == ArrivalPublishFails || call.fault == TaskSaveFails)
  {
    var oc := Loaded(db, call);
    SizesDecide(oc);
    if call.line in oc.required {
      var oc' := oc.(arrived := oc.arrived + {call.line});
      SizesDecide(oc');
      WrittenSoFar(db, call, oc');
    }
    PacksSnoc(db.packs, PackTask(call.order, call.hints), call.order);
  }

  // ---- All runs without a unit of work ----

  /** An arrival whose record is saved, whatever fails after it. */
  predicate Saves(call: Call, r: Record) {
    call.line in r.required && r.arrived != r.required && call.fault != FindFails && call.fault != SaveFails
  }

  function StartOf(h: Option<Record>, call: Call): Record {
    if h.Some? then h.value else Record(SetOf(call.required), {})
  }

  function NextSaved(h: Option<Record>, call: Call, order: OrderRef): Option<Record> {
    var r := StartOf(h, call);
    if call.order == order && Saves(call, r) then Some(r.(arrived := r.arrived + {call.line})) else h
  }

  /** The history of one order by the saved arrivals alone. */
  function SavedHistory(calls: seq<Call>, order: OrderRef): Option<Record> {
    if calls == [] then None else NextSaved(SavedHistory(calls[..|calls| - 1], order), calls[|calls| - 1], order)
  }

  predicate CompletesWith(h: Option<Record>, call: Call, order: OrderRef) {
    var r := StartOf(h, call);
    call.order == order && Saves(call, r) && r.arrived + {call.line} == r.required
  }

  /** The call whose saved arrival completed the order, if one has. */
  function Completer(calls: seq<Call>, order: OrderRef): Option<Call> {
    if calls == [] then None
    else
      var front, call := calls[..|calls| - 1], calls[|calls| - 1];
      if CompletesWith(SavedHistory(front, order), call, order) then Some(call) else Completer(front, order)
  }

  /** The failures that come between the saved record and the saved PACK task. */
  predicate Strands(fault: Fault) {
    fault == ArrivalPublishFails || fault == TaskSaveFails
  }

  /** Record and PACK tasks of an order, told by its saved arrivals and the call that completed it. */
  predicate PlainAgrees(db: Db, order: OrderRef, h: Option<Record>, completer: Option<Call>) {
    && (h.None? <==> order !in db.orders)
    && (h.Some? ==> db.orders[order] == h.value && h.value.arrived <= h.value.required)
    && (completer.Some? <==> Consolidated(h))
    && PacksOf(db.packs, order) == (if completer.Some? && !Strands(completer.value.fault) then 1 else 0)
  }

  lemma PlainCallDoes(db: Db, call: Call)
    requires call.order in db.orders ==> db.orders[call.order].arrived <= db.orders[call.order].required
    ensures var oc := Loaded(db, call);
            ArriveResult(db, call, false).0
            == if Saves(call, oc) then Written(db, call, oc.(arrived := oc.arrived + {call.line})).0 else db
  {
    SizesDecide(Loaded(db, call));
  }

  lemma PlainStep(db: Db, h: Option<Record>, completer: Option<Call>, call: Call, order: OrderRef)
    requires PlainAgrees(db, order, h, completer)
    requires call.order in db.orders ==> db.orders[call.order].arrived <= db.orders[call.order].required
    ensures PlainAgrees(ArriveResult(db, call, false).0, order, NextSaved(h, call, order),
                        if CompletesWith(h, call, order) then Some(call) else completer)
  {
    PlainCallDoes(db, call);
    var oc := Loaded(db, call);
    if Saves(call, oc) {
      var oc' := oc.(arrived := oc.arrived + {call.line});
      SizesDecide(oc');
      WrittenSoFar(db, call, oc');
      PacksSnoc(db.packs, PackTask(call.order, call.hints), order);
    }
  }

  lemma {:induction false} PlainRun(calls: seq<Call>, order: OrderRef)
    ensures PlainAgrees(Run(calls, false), order, SavedHistory(calls, order), Completer(calls, order))
  {
    if calls != [] {
      var front, call := calls[..|calls| - 1], calls[|calls| - 1];
      PlainRun(front, order);
      PlainRun(front, call.order);
      PlainStep(Run(front, false), SavedHistory(front, order), Completer(front, order), call, order);
    }
  }

  /**
   Over any sequence of calls without a transactional scope: an order is complete without a PACK task exactly when the
   call that completed it failed to announce the arrival or to save the task. It never gets two.
   */
  lemma StrandedExactlyWhen(calls: seq<Call>, order: OrderRef)
    ensures Stuck(Run(calls, false), order) <==> Completer(calls, order).Some? && Strands(Completer(calls, order).value.fault)
    ensures PacksOf(Run(calls, false).packs, order) <= 1
  {
    PlainRun(calls, order);
    if SavedHistory(calls, order).Some? {
      SizesDecide(SavedHistory(calls, order).value);
    }
  }

  function RunFrom(db: Db, calls: seq<Call>, transactional: bool): Db
    decreases |calls|
  {
    if calls == [] then db else RunFrom(ArriveResult(db, calls[0], transactional).0, calls[1..], transactional)
  }

  /** Retrying never helps a stranded order: its PACK task is never created. */
  lemma {:induction false} StuckForGood(db: Db, calls: seq<Call>, transactional: bool, order: OrderRef)
    requires Stuck(db, order)
    ensures Stuck(RunFrom(db, calls, transactional), order)
    decreases |calls|
  {
    if calls != [] {
      StuckStep(db, calls[0], transactional, order);
      StuckForGood(ArriveResult(db, calls[0], transactional).0, calls[1..], transactional, order);
    }
  }
}

/** The refinement behind the short recall handles of `extensions/pi.ts`: four maps updated step by step
    against a plain log of everything that was exposed, for any naming of handles and targets.
    `RecallHandles` supplies the adapter's own. */
module HandleLog {
  import opened Wrappers
  import opened Sequences

  const CAPACITY: nat := 1_000

  datatype Result = Result(
    id: string,
    documentId: Option<string>,
    project: Option<string>,
    sessionId: Option<string>,
    version: Option<nat>)

  /** `order` lists the keys of `handles` in insertion order; the order of the other maps is
      never observed. */
  datatype Maps = Maps(
    order: seq<string>,
    handles: map<string, string>,
    targets: map<string, string>,
    byTarget: map<string, string>,
    byDocument: map<string, string>,
    next: nat)

  const EMPTY := Maps([], map[], map[], map[], map[], 1)

  datatype Exposure = Exposure(result: Result, number: nat)

  /** How handles are spelled and how targets are identified. */
  datatype Naming = Naming(handleOf: nat -> string, numberOf: string -> nat, targetOf: Result -> string) {

    /** Distinct numbers have distinct handles. */
    ghost predicate Injective() {
      forall n: nat :: numberOf(handleOf(n)) == n
    }

    function HandleFor(maps: Maps, result: Result): string {
      if targetOf(result) in maps.byTarget then maps.byTarget[targetOf(result)] else handleOf(maps.next)
    }

    /** One exposure, before anything is evicted. */
    function Admit(maps: Maps, result: Result): Maps {
      var target, handle := targetOf(result), HandleFor(maps, result);
      var isNew := target !in maps.byTarget;
      Maps(if handle in maps.handles then maps.order else maps.order + [handle],
           maps.handles[handle := result.id],
           if isNew then maps.targets[handle := target] else maps.targets,
           if isNew then maps.byTarget[target := handle] else maps.byTarget,
           if result.documentId.Some? then maps.byDocument[result.documentId.value := handle] else maps.byDocument,
           if isNew then maps.next + 1 else maps.next)
    }

    function DropOldest(maps: Maps): Maps
      requires maps.order != []
    {
      var oldest := maps.order[0];
      Maps(maps.order[1..],
           maps.handles - {oldest},
           maps.targets - {oldest},
           if oldest in maps.targets then maps.byTarget - {maps.targets[oldest]} else maps.byTarget,
           map documentId | documentId in maps.byDocument && maps.byDocument[documentId] != oldest
             :: maps.byDocument[documentId],
           maps.next)
    }

    function Evict(maps: Maps): Maps
      decreases |maps.order|
    {
      if |maps.order| > CAPACITY then Evict(DropOldest(maps)) else maps
    }

    function Expose(maps: Maps, result: Result): Maps {
      Evict(Admit(maps, result))
    }

    function ExposeAll(maps: Maps, results: seq<Result>): Maps {
      if results == [] then maps
      else Expose(ExposeAll(maps, results[..|results| - 1]), results[|results| - 1])
    }

    /** The results as the model sees them: each locator replaced by its handle. */
    function Exposed(maps: Maps, results: seq<Result>): seq<Result> {
      if results == [] then []
      else
        var init, last := results[..|results| - 1], results[|results| - 1];
        Exposed(maps, init) + [last.(id := HandleFor(ExposeAll(maps, init), last))]
    }

    /** `recallHandles.get(recallHandleByDocumentId.get(id) ?? id) ?? id` */
    function Resolve(maps: Maps, id: string): string {
      var handle := if id in maps.byDocument then maps.byDocument[id] else id;
      if handle in maps.handles then maps.handles[handle] else id
    }

    // ---------------------------------------------------------------------------------------
    // The log
    // ---------------------------------------------------------------------------------------

    /** The next number to hand out: one more than the largest handed out so far. */
    ghost function Next(log: seq<Exposure>): nat {
      if log == [] then 1
      else
        var before, last := Next(log[..|log| - 1]), log[|log| - 1].number;
        if last >= before then last + 1 else before
    }

    /** The most recent exposure with the given property. */
    ghost function Latest(log: seq<Exposure>, selected: Exposure -> bool): Option<Exposure> {
      if log == [] then None
      else if selected(log[|log| - 1]) then Some(log[|log| - 1])
      else Latest(log[..|log| - 1], selected)
    }

    ghost function LatestOfTarget(log: seq<Exposure>, target: string): Option<Exposure> {
      Latest(log, (e: Exposure) => targetOf(e.result) == target)
    }

    ghost function LatestOfDocument(log: seq<Exposure>, documentId: string): Option<Exposure> {
      Latest(log, (e: Exposure) => e.result.documentId == Some(documentId))
    }

    ghost function LatestOfNumber(log: seq<Exposure>, n: nat): Option<Exposure> {
      Latest(log, (e: Exposure) => e.number == n)
    }

    /** The last thousand numbers handed out are live; older ones never come back. */
    ghost predicate Live(log: seq<Exposure>, n: nat) {
      1 <= n < Next(log) <= n + CAPACITY
    }

    /** A target keeps its number while that number is live, and gets a new one afterwards. */
    ghost function NumberFor(log: seq<Exposure>, result: Result): nat {
      var latest := LatestOfTarget(log, targetOf(result));
      if latest.Some? && Live(log, latest.value.number) then latest.value.number else Next(log)
    }

    ghost function LogOf(results: seq<Result>): seq<Exposure> {
      if results == [] then []
      else
        var before := LogOf(results[..|results| - 1]);
        before + [Exposure(results[|results| - 1], NumberFor(before, results[|results| - 1]))]
    }

    // ---------------------------------------------------------------------------------------
    // Refinement
    // ---------------------------------------------------------------------------------------

    ghost predicate Window(log: seq<Exposure>, lo: nat, n: nat) {
      1 <= lo <= n < Next(log)
    }

    /** Exactly the handles `lo` to `next - 1`, oldest first, are live, in both handle maps. */
    ghost predicate HandlesInOrder(maps: Maps, log: seq<Exposure>, lo: nat) {
      && maps.next == Next(log)
      && 1 <= lo <= maps.next
      && |maps.order| == maps.next - lo
      && (forall i :: 0 <= i < |maps.order| ==> maps.order[i] == handleOf(lo + i))
      && (forall h :: h in maps.handles <==> h in maps.order)
      && (forall h :: h in maps.targets <==> h in maps.order)
    }

    /** A live handle carries its target and that target's latest locator. */
    ghost predicate Locates(maps: Maps, log: seq<Exposure>, n: nat) {
      && LatestOfNumber(log, n).Some?
      && handleOf(n) in maps.handles && maps.handles[handleOf(n)] == LatestOfNumber(log, n).value.result.id
      && handleOf(n) in maps.targets && maps.targets[handleOf(n)] == targetOf(LatestOfNumber(log, n).value.result)
    }

    ghost predicate HandlesLocate(maps: Maps, log: seq<Exposure>, lo: nat) {
      forall n :: Window(log, lo, n) ==> Locates(maps, log, n)
    }

    /** `known` holds `key` exactly while the handle of its latest exposure is live. */
    ghost predicate FoundAt(known: map<string, string>, key: string, latest: Option<Exposure>, log: seq<Exposure>, lo: nat) {
      && (key in known <==> latest.Some? && Window(log, lo, latest.value.number))
      && (key in known ==> known[key] == handleOf(latest.value.number))
    }

    ghost predicate TargetsFound(maps: Maps, log: seq<Exposure>, lo: nat) {
      forall target :: FoundAt(maps.byTarget, target, LatestOfTarget(log, target), log, lo)
    }

    ghost predicate DocumentsFound(maps: Maps, log: seq<Exposure>, lo: nat) {
      forall documentId :: FoundAt(maps.byDocument, documentId, LatestOfDocument(log, documentId), log, lo)
    }

    /** A number in the window is the latest number of its target. */
    ghost predicate NumbersCurrent(log: seq<Exposure>, lo: nat) {
      forall e :: e in log && Window(log, lo, e.number) ==>
        LatestOfTarget(log, targetOf(e.result)).Some? && LatestOfTarget(log, targetOf(e.result)).value.number == e.number
    }

    /** No number was ever given to two targets, and none is out of range. */
    ghost predicate NumbersAreTargets(log: seq<Exposure>) {
      && (forall e :: e in log ==> 1 <= e.number < Next(log))
      && (forall e, f :: e in log && f in log && e.number == f.number ==> targetOf(e.result) == targetOf(f.result))
    }

    ghost predicate RefinesFrom(maps: Maps, log: seq<Exposure>, lo: nat) {
      && HandlesInOrder(maps, log, lo)
      && HandlesLocate(maps, log, lo)
      && TargetsFound(maps, log, lo)
      && DocumentsFound(maps, log, lo)
      && NumbersCurrent(log, lo)
      && NumbersAreTargets(log)
    }

    function Oldest(next: nat): nat {
      if next <= CAPACITY then 1 else next - CAPACITY
    }

    /** The four maps hold exactly what the log says about the live numbers, and nothing else. */
    ghost predicate Refines(maps: Maps, log: seq<Exposure>) {
      RefinesFrom(maps, log, Oldest(maps.next))
    }

    lemma NextSnoc(log: seq<Exposure>, e: Exposure)
      ensures Next(log + [e]) == if e.number >= Next(log) then e.number + 1 else Next(log)
    {
      assert (log + [e])[..|log|] == log;
    }

    lemma LatestSnoc(log: seq<Exposure>, e: Exposure, selected: Exposure -> bool)
      ensures Latest(log + [e], selected) == if selected(e) then Some(e) else Latest(log, selected)
    {
      assert (log + [e])[..|log|] == log;
    }

    lemma {:induction false} LatestFound(log: seq<Exposure>, selected: Exposure -> bool)
      ensures Latest(log, selected).Some? ==> Latest(log, selected).value in log && selected(Latest(log, selected).value)
      ensures forall e :: e in log && selected(e) ==> Latest(log, selected).Some?
    {
      if log != [] {
        LatestFound(log[..|log| - 1], selected);
        assert forall e :: e in log ==> e in log[..|log| - 1] || e == log[|log| - 1];
      }
    }

    lemma LatestOfTargetSnoc(log: seq<Exposure>, e: Exposure, target: string)
      ensures LatestOfTarget(log + [e], target) == if targetOf(e.result) == target then Some(e) else LatestOfTarget(log, target)
    {
      LatestSnoc(log, e, (e: Exposure) => targetOf(e.result) == target);
    }

    lemma LatestOfTargetFound(log: seq<Exposure>, target: string)
      ensures var latest := LatestOfTarget(log, target);
              latest.Some? ==> latest.value in log && targetOf(latest.value.result) == target
      ensures forall e :: e in log && targetOf(e.result) == target ==> LatestOfTarget(log, target).Some?
    {
      LatestFound(log, (e: Exposure) => targetOf(e.result) == target);
    }

    lemma LatestOfNumberSnoc(log: seq<Exposure>, e: Exposure, n: nat)
      ensures LatestOfNumber(log + [e], n) == if e.number == n then Some(e) else LatestOfNumber(log, n)
    {
      LatestSnoc(log, e, (e: Exposure) => e.number == n);
    }

    lemma LatestOfNumberFound(log: seq<Exposure>, n: nat)
      ensures var latest := LatestOfNumber(log, n);
              latest.Some? ==> latest.value in log && latest.value.number == n
      ensures forall e :: e in log && e.number == n ==> LatestOfNumber(log, n).Some?
    {
      LatestFound(log, (e: Exposure) => e.number == n);
    }

    lemma LatestOfDocumentSnoc(log: seq<Exposure>, e: Exposure, documentId: string)
      ensures LatestOfDocument(log + [e], documentId)
           == if e.result.documentId == Some(documentId) then Some(e) else LatestOfDocument(log, documentId)
    {
      LatestSnoc(log, e, (e: Exposure) => e.result.documentId == Some(documentId));
    }

    lemma LatestOfDocumentFound(log: seq<Exposure>, documentId: string)
      ensures var latest := LatestOfDocument(log, documentId);
              latest.Some? ==> latest.value in log && latest.value.result.documentId == Some(documentId)
    {
      LatestFound(log, (e: Exposure) => e.result.documentId == Some(documentId));
    }

    /** The number chosen for a result, in terms of the maps. */
    lemma NumberIsHandle(maps: Maps, log: seq<Exposure>, result: Result)
      requires Injective()
      requires Refines(maps, log)
      ensures var n := NumberFor(log, result);
              && HandleFor(maps, result) == handleOf(n)
              && 1 <= Oldest(maps.next) <= n <= maps.next
              && (targetOf(result) in maps.byTarget <==> n < maps.next)
              && (n < maps.next ==> LatestOfTarget(log, targetOf(result)).Some?
                                    && LatestOfTarget(log, targetOf(result)).value.number == n)
    {
      LatestOfTargetFound(log, targetOf(result));
    }

    lemma AdmitOrder(maps: Maps, log: seq<Exposure>, result: Result)
      requires Injective()
      requires Refines(maps, log)
      ensures var e := Exposure(result, NumberFor(log, result));
              HandlesInOrder(Admit(maps, result), log + [e], Oldest(maps.next))
    {
      NumberIsHandle(maps, log, result);
      AdmitKeepsOrder(maps, log, result, NumberFor(log, result), Oldest(maps.next));
    }

    lemma AdmitKeepsOrder(maps: Maps, log: seq<Exposure>, result: Result, n: nat, lo: nat)
      requires Injective()
      requires HandlesInOrder(maps, log, lo)
      requires lo <= n <= maps.next && HandleFor(maps, result) == handleOf(n)
      requires targetOf(result) in maps.byTarget <==> n < maps.next
      ensures HandlesInOrder(Admit(maps, result), log + [Exposure(result, n)], lo)
    {
      NextSnoc(log, Exposure(result, n));
      if n < maps.next {
        assert maps.order[n - lo] == handleOf(n);
      } else {
        NewHandle(maps, log, lo);
        OrderGrows(maps.order, lo, n);
      }
    }

    /** The next handle is not in use yet. */
    lemma NewHandle(maps: Maps, log: seq<Exposure>, lo: nat)
      requires Injective()
      requires HandlesInOrder(maps, log, lo)
      ensures handleOf(maps.next) !in maps.order
    {
      forall i | 0 <= i < |maps.order|
        ensures maps.order[i] != handleOf(maps.next)
      {
        assert numberOf(maps.order[i]) == lo + i;
      }
    }

    lemma OrderGrows(order: seq<string>, lo: nat, n: nat)
      requires |order| == n - lo && forall i :: 0 <= i < |order| ==> order[i] == handleOf(lo + i)
      ensures forall i :: 0 <= i < |order + [handleOf(n)]| ==> (order + [handleOf(n)])[i] == handleOf(lo + i)
      ensures forall h :: h in order + [handleOf(n)] <==> h in order || h == handleOf(n)
    {
    }

    lemma AdmitNumbers(maps: Maps, log: seq<Exposure>, result: Result)
      requires Injective()
      requires Refines(maps, log)
      ensures var log' := log + [Exposure(result, NumberFor(log, result))];
              NumbersAreTargets(log') && NumbersCurrent(log', Oldest(maps.next))
    {
      var n := NumberFor(log, result);
      var e := Exposure(result, n);
      var log', lo := log + [e], Oldest(maps.next);
      NumberIsHandle(maps, log, result);
      NextSnoc(log, e);
      LatestOfTargetFound(log, targetOf(result));
      forall f | f in log'
        ensures f in log || f == e
        ensures f.number == n ==> targetOf(f.result) == targetOf(result)
        ensures Window(log', lo, f.number) ==>
                  LatestOfTarget(log', targetOf(f.result)).Some? && LatestOfTarget(log', targetOf(f.result)).value.number == f.number
      {
        LatestOfTargetSnoc(log, e, targetOf(f.result));
      }
    }

    lemma AdmitLocatesAt(maps: Maps, log: seq<Exposure>, result: Result, m: nat)
      requires Injective()
      requires Refines(maps, log)
      requires Window(log + [Exposure(result, NumberFor(log, result))], Oldest(maps.next), m)
      ensures Locates(Admit(maps, result), log + [Exposure(result, NumberFor(log, result))], m)
    {
      var n := NumberFor(log, result);
      var e := Exposure(result, n);
      NumberIsHandle(maps, log, result);
      NextSnoc(log, e);
      LatestOfNumberSnoc(log, e, m);
      if m != n {
        assert Window(log, Oldest(maps.next), m);
        assert Locates(maps, log, m);
      } else if n < maps.next {
        assert Window(log, Oldest(maps.next), n);
        assert Locates(maps, log, n);
        LatestOfTargetFound(log, targetOf(result));
        LatestOfNumberFound(log, n);
      }
    }

    lemma AdmitFindsTarget(maps: Maps, log: seq<Exposure>, result: Result, target: string)
      requires Injective()
      requires Refines(maps, log)
      ensures var log' := log + [Exposure(result, NumberFor(log, result))];
              FoundAt(Admit(maps, result).byTarget, target, LatestOfTarget(log', target), log', Oldest(maps.next))
    {
      var e := Exposure(result, NumberFor(log, result));
      NumberIsHandle(maps, log, result);
      NextSnoc(log, e);
      LatestOfTargetSnoc(log, e, target);
      LatestOfTargetFound(log, target);
      assert FoundAt(maps.byTarget, target, LatestOfTarget(log, target), log, Oldest(maps.next));
    }

    lemma AdmitFindsDocument(maps: Maps, log: seq<Exposure>, result: Result, documentId: string)
      requires Injective()
      requires Refines(maps, log)
      ensures var log' := log + [Exposure(result, NumberFor(log, result))];
              FoundAt(Admit(maps, result).byDocument, documentId, LatestOfDocument(log', documentId), log', Oldest(maps.next))
    {
      var e := Exposure(result, NumberFor(log, result));
      NumberIsHandle(maps, log, result);
      NextSnoc(log, e);
      LatestOfDocumentSnoc(log, e, documentId);
      LatestOfDocumentFound(log, documentId);
      assert FoundAt(maps.byDocument, documentId, LatestOfDocument(log, documentId), log, Oldest(maps.next));
    }

    lemma AdmitRefines(maps: Maps, log: seq<Exposure>, result: Result)
      requires Injective()
      requires Refines(maps, log)
      ensures RefinesFrom(Admit(maps, result), log + [Exposure(result, NumberFor(log, result))], Oldest(maps.next))
    {
      var log', lo := log + [Exposure(result, NumberFor(log, result))], Oldest(maps.next);
      var admitted := Admit(maps, result);
      AdmitOrder(maps, log, result);
      AdmitNumbers(maps, log, result);
      forall m | Window(log', lo, m)
        ensures Locates(admitted, log', m)
      {
        AdmitLocatesAt(maps, log, result, m);
      }
      forall target
        ensures FoundAt(admitted.byTarget, target, LatestOfTarget(log', target), log', lo)
      {
        AdmitFindsTarget(maps, log, result, target);
      }
      forall documentId
        ensures FoundAt(admitted.byDocument, documentId, LatestOfDocument(log', documentId), log', lo)
      {
        AdmitFindsDocument(maps, log, result, documentId);
      }
    }

    lemma DropOrder(maps: Maps, log: seq<Exposure>, lo: nat)
      requires Injective()
      requires HandlesInOrder(maps, log, lo) && lo < maps.next
      ensures HandlesInOrder(DropOldest(maps), log, lo + 1)
      ensures maps.order[0] == handleOf(lo)
    {
      var dropped := DropOldest(maps);
      forall h
        ensures h in dropped.order <==> h in maps.order && h != handleOf(lo)
      {
        if h in dropped.order {
          var i :| 0 <= i < |dropped.order| && dropped.order[i] == h;
          assert maps.order[i + 1] == h;
        }
      }
    }

    lemma DropLocatesAt(maps: Maps, log: seq<Exposure>, lo: nat, n: nat)
      requires Injective()
      requires RefinesFrom(maps, log, lo) && lo < maps.next
      requires Window(log, lo + 1, n)
      ensures Locates(DropOldest(maps), log, n)
    {
      assert Window(log, lo, n);
      assert Locates(maps, log, n);
      DropOrder(maps, log, lo);
    }

    lemma DropFindsTarget(maps: Maps, log: seq<Exposure>, lo: nat, target: string)
      requires Injective()
      requires RefinesFrom(maps, log, lo) && lo < maps.next
      ensures FoundAt(DropOldest(maps).byTarget, target, LatestOfTarget(log, target), log, lo + 1)
    {
      var latest := LatestOfTarget(log, target);
      assert FoundAt(maps.byTarget, target, latest, log, lo);
      assert Window(log, lo, lo);
      assert Locates(maps, log, lo);
      DropOrder(maps, log, lo);
      LatestOfNumberFound(log, lo);
      LatestOfTargetFound(log, target);
      if latest.Some? {
      }
    }

    lemma DropFindsDocument(maps: Maps, log: seq<Exposure>, lo: nat, documentId: string)
      requires Injective()
      requires RefinesFrom(maps, log, lo) && lo < maps.next
      ensures FoundAt(DropOldest(maps).byDocument, documentId, LatestOfDocument(log, documentId), log, lo + 1)
    {
      var latest := LatestOfDocument(log, documentId);
      assert FoundAt(maps.byDocument, documentId, latest, log, lo);
      DropOrder(maps, log, lo);
      if latest.Some? {
      }
    }

    lemma DropRefines(maps: Maps, log: seq<Exposure>, lo: nat)
      requires Injective()
      requires RefinesFrom(maps, log, lo) && lo < maps.next
      ensures RefinesFrom(DropOldest(maps), log, lo + 1)
    {
      var dropped := DropOldest(maps);
      DropOrder(maps, log, lo);
      forall n | Window(log, lo + 1, n)
        ensures Locates(dropped, log, n)
      {
        DropLocatesAt(maps, log, lo, n);
      }
      forall target
        ensures FoundAt(dropped.byTarget, target, LatestOfTarget(log, target), log, lo + 1)
      {
        DropFindsTarget(maps, log, lo, target);
      }
      forall documentId
        ensures FoundAt(dropped.byDocument, documentId, LatestOfDocument(log, documentId), log, lo + 1)
      {
        DropFindsDocument(maps, log, lo, documentId);
      }
    }

    /** The eviction loop removes exactly the numbers that are no longer live. */
    lemma {:induction false} EvictRefines(maps: Maps, log: seq<Exposure>, lo: nat)
      requires Injective()
      requires RefinesFrom(maps, log, lo)
      requires lo <= Oldest(maps.next)
      ensures Refines(Evict(maps), log)
      decreases |maps.order|
    {
      if |maps.order| > CAPACITY {
        DropRefines(maps, log, lo);
        EvictRefines(DropOldest(maps), log, lo + 1);
      } else {
        assert lo == Oldest(maps.next);
      }
    }

    /** One exposure: the handle it hands out is the one the log predicts, and the maps go on
        refining the log. */
    lemma ExposeRefines(maps: Maps, log: seq<Exposure>, result: Result)
      requires Injective()
      requires Refines(maps, log)
      ensures HandleFor(maps, result) == handleOf(NumberFor(log, result))
      ensures Refines(Expose(maps, result), log + [Exposure(result, NumberFor(log, result))])
    {
      NumberIsHandle(maps, log, result);
      AdmitRefines(maps, log, result);
      AdmitOrder(maps, log, result);
      NextSnoc(log, Exposure(result, NumberFor(log, result)));
      EvictRefines(Admit(maps, result), log + [Exposure(result, NumberFor(log, result))], Oldest(maps.next));
    }

    lemma {:induction false} LogLists(results: seq<Result>)
      ensures |LogOf(results)| == |results|
      ensures forall i :: 0 <= i < |results| ==> LogOf(results)[i].result == results[i]
    {
      if results != [] {
        LogLists(results[..|results| - 1]);
      }
    }

    /** Over every sequence of exposures the maps are a function of the log. */
    lemma {:induction false} ExposeAllRefines(results: seq<Result>)
      requires Injective()
      ensures Refines(ExposeAll(EMPTY, results), LogOf(results))
    {
      if results == [] {
        EmptyRefines();
      } else {
        var init, last := results[..|results| - 1], results[|results| - 1];
        ExposeAllRefines(init);
        ExposeRefines(ExposeAll(EMPTY, init), LogOf(init), last);
      }
    }

    lemma EmptyRefines()
      ensures Refines(EMPTY, [])
    {
    }

    // -------------------------------------------------------------------------------------
    // Consequences for maps that refine a log
    // -------------------------------------------------------------------------------------

    lemma LiveHandle(maps: Maps, log: seq<Exposure>, n: nat)
      requires Injective()
      requires Refines(maps, log)
      ensures handleOf(n) in maps.handles <==> Live(log, n)
      ensures Live(log, n) ==> Locates(maps, log, n)
    {
      if handleOf(n) in maps.handles {
        var i :| 0 <= i < |maps.order| && maps.order[i] == handleOf(n);
        assert numberOf(maps.order[i]) == Oldest(maps.next) + i;
      }
      if Live(log, n) {
        assert Window(log, Oldest(maps.next), n);
      }
    }

    lemma TargetOfHandle(maps: Maps, log: seq<Exposure>, handle: string)
      requires Injective()
      requires Refines(maps, log)
      requires handle in maps.targets
      ensures maps.targets[handle] in maps.byTarget && maps.byTarget[maps.targets[handle]] == handle
    {
      var i :| 0 <= i < |maps.order| && maps.order[i] == handle;
      var lo := Oldest(maps.next);
      assert Window(log, lo, lo + i);
      assert Locates(maps, log, lo + i);
      LatestOfNumberFound(log, lo + i);
      var target := maps.targets[handle];
      assert FoundAt(maps.byTarget, target, LatestOfTarget(log, target), log, lo);
    }

    lemma HandleOfTarget(maps: Maps, log: seq<Exposure>, target: string)
      requires Injective()
      requires Refines(maps, log)
      requires target in maps.byTarget
      ensures maps.byTarget[target] in maps.targets && maps.targets[maps.byTarget[target]] == target
    {
      var lo := Oldest(maps.next);
      assert FoundAt(maps.byTarget, target, LatestOfTarget(log, target), log, lo);
      var n := LatestOfTarget(log, target).value.number;
      assert Locates(maps, log, n);
      LatestOfTargetFound(log, target);
      LatestOfNumberFound(log, n);
    }

    lemma DocumentLeads(maps: Maps, log: seq<Exposure>, documentId: string)
      requires Injective()
      requires Refines(maps, log)
      ensures var latest := LatestOfDocument(log, documentId);
              if latest.Some? && Live(log, latest.value.number) then
                && documentId in maps.byDocument
                && maps.byDocument[documentId] == handleOf(latest.value.number)
                && Locates(maps, log, latest.value.number)
              else documentId !in maps.byDocument
    {
      var latest := LatestOfDocument(log, documentId);
      assert FoundAt(maps.byDocument, documentId, latest, log, Oldest(maps.next));
      if latest.Some? {
        LiveHandle(maps, log, latest.value.number);
      }
    }

    // -------------------------------------------------------------------------------------
    // Consequences for every sequence of exposures
    // -------------------------------------------------------------------------------------

    /** The live handles are exactly the last thousand handed out, whatever was refreshed since. */
    lemma LiveHandles(results: seq<Result>, n: nat)
      requires Injective()
      ensures handleOf(n) in ExposeAll(EMPTY, results).handles <==> Live(LogOf(results), n)
    {
      ExposeAllRefines(results);
      LiveHandle(ExposeAll(EMPTY, results), LogOf(results), n);
    }

    /** The two target maps are inverse to each other, and both handle maps have the same keys, at
        most a thousand of them. */
    lemma MapsAreInverse(results: seq<Result>, handle: string, target: string)
      requires Injective()
      ensures var maps := ExposeAll(EMPTY, results);
              && (handle in maps.targets && maps.targets[handle] == target
                  <==> target in maps.byTarget && maps.byTarget[target] == handle)
              && maps.handles.Keys == maps.targets.Keys == (set h | h in maps.order)
              && |maps.order| <= CAPACITY
    {
      var maps := ExposeAll(EMPTY, results);
      ExposeAllRefines(results);
      if handle in maps.targets {
        TargetOfHandle(maps, LogOf(results), handle);
      }
      if target in maps.byTarget {
        HandleOfTarget(maps, LogOf(results), target);
      }
    }

    /** A handle is never reassigned: two exposures that got the same one exposed the same target. */
    lemma HandlesNotReassigned(results: seq<Result>, i: nat, j: nat)
      requires Injective()
      requires i < |results| && j < |results|
      ensures |LogOf(results)| == |results|
      ensures handleOf(LogOf(results)[i].number) == handleOf(LogOf(results)[j].number) ==>
                targetOf(results[i]) == targetOf(results[j])
    {
      LogLists(results);
      ExposeAllRefines(results);
      var log := LogOf(results);
      if handleOf(log[i].number) == handleOf(log[j].number) {
        SameNumberSameTarget(log, i, j);
      }
    }

    lemma SameNumberSameTarget(log: seq<Exposure>, i: nat, j: nat)
      requires Injective()
      requires NumbersAreTargets(log)
      requires i < |log| && j < |log| && handleOf(log[i].number) == handleOf(log[j].number)
      ensures targetOf(log[i].result) == targetOf(log[j].result)
    {
      assert numberOf(handleOf(log[i].number)) == log[i].number;
      assert numberOf(handleOf(log[j].number)) == log[j].number;
      assert log[i] in log && log[j] in log;
    }

    /** A document identifier is known exactly while the handle of its latest exposure is live, and
        then leads to the latest locator exposed under that handle. */
    lemma DocumentResolvesToLatest(results: seq<Result>, documentId: string)
      requires Injective()
      ensures var maps, log := ExposeAll(EMPTY, results), LogOf(results);
              var latest := LatestOfDocument(log, documentId);
              && (documentId in maps.byDocument <==> latest.Some? && Live(log, latest.value.number))
              && (documentId in maps.byDocument ==>
                    && maps.byDocument[documentId] in maps.handles
                    && LatestOfNumber(log, latest.value.number).Some?
                    && Resolve(maps, documentId) == LatestOfNumber(log, latest.value.number).value.result.id)
    {
      ExposeAllRefines(results);
      DocumentLeads(ExposeAll(EMPTY, results), LogOf(results), documentId);
    }

    /** The locator that a number stands for. */
    ghost function LocatorOf(log: seq<Exposure>, n: nat): Option<string> {
      var latest := LatestOfNumber(log, n);
      if latest.Some? then Some(latest.value.result.id) else None
    }

    /** A live handle resolves to the latest locator of its target, unless a document identifier
        spelled like that handle is known and leads to a different locator; exactly then it does not. */
    lemma HandleResolvesToLatest(results: seq<Result>, n: nat)
      requires Injective()
      requires Live(LogOf(results), n)
      ensures var maps, log := ExposeAll(EMPTY, results), LogOf(results);
              var shadow := LatestOfDocument(log, handleOf(n));
              && LocatorOf(log, n).Some?
              && (Some(Resolve(maps, handleOf(n))) == LocatorOf(log, n)
                  <==> (shadow.Some? && Live(log, shadow.value.number) ==>
                        LocatorOf(log, shadow.value.number) == LocatorOf(log, n)))
    {
      ExposeAllRefines(results);
      LiveHandle(ExposeAll(EMPTY, results), LogOf(results), n);
      DocumentLeads(ExposeAll(EMPTY, results), LogOf(results), handleOf(n));
    }

    /** What a handle is resolved to: a document of that name comes first, a live handle second, and a handle that is
        neither is passed on as it is. */
    ghost predicate Reaches(log: seq<Exposure>, n: nat, locator: string) {
      var shadow := LatestOfDocument(log, handleOf(n));
      if shadow.Some? && Live(log, shadow.value.number) then LocatorOf(log, shadow.value.number) == Some(locator)
      else if Live(log, n) then LocatorOf(log, n) == Some(locator)
      else handleOf(n) == locator
    }

    lemma HandleReaches(results: seq<Result>, n: nat)
      requires Injective()
      ensures Reaches(LogOf(results), n, Resolve(ExposeAll(EMPTY, results), handleOf(n)))
    {
      ExposeAllRefines(results);
      LiveHandle(ExposeAll(EMPTY, results), LogOf(results), n);
      DocumentLeads(ExposeAll(EMPTY, results), LogOf(results), handleOf(n));
    }

    lemma NextHandle(results: seq<Result>, result: Result)
      requires Injective()
      ensures HandleFor(ExposeAll(EMPTY, results), result) == handleOf(NumberFor(LogOf(results), result))
    {
      ExposeAllRefines(results);
      ExposeRefines(ExposeAll(EMPTY, results), LogOf(results), result);
    }

    /** `shown` lists the results under the handles of their log entries. */
    ghost predicate ShownAs(shown: seq<Result>, log: seq<Exposure>) {
      |shown| == |log| && forall i :: 0 <= i < |log| ==> shown[i] == log[i].result.(id := handleOf(log[i].number))
    }

    lemma ShownAsSnoc(shown: seq<Result>, log: seq<Exposure>, e: Exposure)
      requires ShownAs(shown, log)
      ensures ShownAs(shown + [e.result.(id := handleOf(e.number))], log + [e])
    {
    }

    /** What the model is shown: each result under the handle that the log gives it. */
    lemma {:induction false} ExposedHandles(results: seq<Result>)
      requires Injective()
      ensures ShownAs(Exposed(EMPTY, results), LogOf(results))
    {
      if results != [] {
        var init, last := results[..|results| - 1], results[|results| - 1];
        ExposedHandles(init);
        NextHandle(init, last);
        ShownAsSnoc(Exposed(EMPTY, init), LogOf(init), Exposure(last, NumberFor(LogOf(init), last)));
      }
    }

    /** Under which handle a result is shown depends on its target alone: while the handle of an earlier result is
        live, a later one is shown under the same handle if and only if it has the same target. */
    lemma SameHandleIff(results: seq<Result>, i: nat, result: Result)
      requires Injective() && i < |results|
      requires |LogOf(results)| == |results| && Live(LogOf(results), LogOf(results)[i].number)
      ensures HandleFor(ExposeAll(EMPTY, results), result) == handleOf(LogOf(results)[i].number)
              <==> targetOf(result) == targetOf(results[i])
    {
      var maps, log := ExposeAll(EMPTY, results), LogOf(results);
      ExposeAllRefines(results);
      LogLists(results);
      LiveHandle(maps, log, log[i].number);
      LiveTarget(maps, log, i);
      if targetOf(result) in maps.byTarget {
        HandleOfTarget(maps, log, targetOf(result));
      } else {
        PageNumber(log, i);
        assert numberOf(handleOf(log[i].number)) == log[i].number && numberOf(handleOf(maps.next)) == maps.next;
      }
    }

    /** A live handle is the handle of its target. */
    lemma LiveTarget(maps: Maps, log: seq<Exposure>, i: nat)
      requires Injective() && Refines(maps, log)
      requires i < |log| && Live(log, log[i].number)
      ensures var handle, target := handleOf(log[i].number), targetOf(log[i].result);
              && handle in maps.targets && maps.targets[handle] == target
              && target in maps.byTarget && maps.byTarget[target] == handle
    {
      var n := log[i].number;
      LiveHandle(maps, log, n);
      LatestOfNumberFound(log, n);
      assert log[i] in log;
      TargetOfHandle(maps, log, handleOf(n));
    }

    /** Each result is shown under the handle it has when its turn comes. */
    lemma {:induction false} ExposedAt(maps: Maps, results: seq<Result>, i: nat)
      requires i < |results|
      ensures |Exposed(maps, results)| == |results|
      ensures Exposed(maps, results)[i] == results[i].(id := HandleFor(ExposeAll(maps, results[..i]), results[i]))
    {
      var init := results[..|results| - 1];
      ExposedCount(maps, init);
      if i < |init| {
        ExposedAt(maps, init, i);
        assert init[..i] == results[..i];
      }
    }

    lemma ShownAlikeOnly(results: seq<Result>, i: nat, j: nat)
      requires Injective() && i < |results| && j < |results|
      ensures |Exposed(EMPTY, results)| == |results|
      ensures Exposed(EMPTY, results)[i].id == Exposed(EMPTY, results)[j].id ==> targetOf(results[i]) == targetOf(results[j])
    {
      ExposedHandles(results);
      HandlesNotReassigned(results, i, j);
    }

    /** Two results are shown under one handle only if they have one target; and, as long as the handle of the first
        is live, always then. */
    lemma ShownAlikeIff(results: seq<Result>, i: nat, j: nat)
      requires Injective() && i < j < |results|
      ensures |Exposed(EMPTY, results)| == |results|
      ensures Exposed(EMPTY, results)[i].id == Exposed(EMPTY, results)[j].id ==> targetOf(results[i]) == targetOf(results[j])
      ensures var shown := Exposed(EMPTY, results);
              shown[i].id in ExposeAll(EMPTY, results[..j]).handles ==>
                (shown[i].id == shown[j].id <==> targetOf(results[i]) == targetOf(results[j]))
    {
      var before := results[..j];
      ShownAlikeOnly(results, i, j);
      ExposedAt(EMPTY, results, i);
      ExposedAt(EMPTY, results, j);
      ExposedAt(EMPTY, before, i);
      assert before[..i] == results[..i];
      ExposedHandles(before);
      LogLists(before);
      LiveHandles(before, LogOf(before)[i].number);
      if Live(LogOf(before), LogOf(before)[i].number) {
        SameHandleIff(before, i, results[j]);
      }
    }

    /** A page exposed after other results continues their log. */
    lemma {:induction false} PageFollows(earlier: seq<Result>, page: seq<Result>)
      ensures ExposeAll(EMPTY, earlier + page) == ExposeAll(ExposeAll(EMPTY, earlier), page)
      ensures Exposed(EMPTY, earlier + page) == Exposed(EMPTY, earlier) + Exposed(ExposeAll(EMPTY, earlier), page)
    {
      if page == [] {
        Nothing(earlier);
        Nothing(Exposed(EMPTY, earlier));
      } else {
        var init, last := page[..|page| - 1], page[|page| - 1];
        PageFollows(earlier, init);
        AppendLast(earlier, page);
        ExposedSnoc(EMPTY, earlier + init, last);
        Associate(Exposed(EMPTY, earlier), Exposed(ExposeAll(EMPTY, earlier), init),
                  [last.(id := HandleFor(ExposeAll(EMPTY, earlier + init), last))]);
      }
    }

    lemma ExposedSnoc(maps: Maps, results: seq<Result>, result: Result)
      ensures ExposeAll(maps, results + [result]) == Expose(ExposeAll(maps, results), result)
      ensures Exposed(maps, results + [result])
           == Exposed(maps, results) + [result.(id := HandleFor(ExposeAll(maps, results), result))]
    {
      assert (results + [result])[..|results|] == results;
    }

    /** The number under which the `i`-th result of a page is shown. */
    ghost function PageNumberOf(earlier: seq<Result>, page: seq<Result>, i: nat): nat
      requires i < |page|
    {
      NumberFor(LogOf(earlier + page[..i]), page[i])
    }

    lemma PageSnoc(earlier: seq<Result>, init: seq<Result>, last: Result)
      requires Injective()
      ensures var n := NumberFor(LogOf(earlier + init), last);
              && Exposed(ExposeAll(EMPTY, earlier), init + [last])
                 == Exposed(ExposeAll(EMPTY, earlier), init) + [last.(id := handleOf(n))]
              && LogOf(earlier + (init + [last])) == LogOf(earlier + init) + [Exposure(last, n)]
    {
      PageFollows(earlier, init);
      NextHandle(earlier + init, last);
      ExposedSnoc(ExposeAll(EMPTY, earlier), init, last);
      RunSnoc(earlier + init, last);
      Associate(earlier, init, [last]);
    }

    /** A result is shown under the handle of its number, and what was exposed under that number is known. */
    ghost predicate ShownUnder(exposed: seq<Result>, log: seq<Exposure>, i: nat, n: nat) {
      i < |exposed| && exposed[i].id == handleOf(n) && LatestOfNumber(log, n).Some?
    }

    lemma ShownUnderSnoc(exposed: seq<Result>, log: seq<Exposure>, i: nat, n: nat, e: Exposure)
      ensures ShownUnder(exposed, log, i, n) ==>
                ShownUnder(exposed + [e.result.(id := handleOf(e.number))], log + [e], i, n)
      ensures ShownUnder(exposed + [e.result.(id := handleOf(e.number))], log + [e], |exposed|, e.number)
    {
      LatestOfNumberSnoc(log, e, n);
      LatestOfNumberSnoc(log, e, e.number);
    }

    /** `ShownUnder` for a page exposed after other results. */
    ghost predicate PageShows(earlier: seq<Result>, page: seq<Result>, i: nat, n: nat) {
      ShownUnder(Exposed(ExposeAll(EMPTY, earlier), page), LogOf(earlier + page), i, n)
    }

    lemma PageShowsSnoc(earlier: seq<Result>, init: seq<Result>, last: Result, i: nat, n: nat)
      requires Injective()
      ensures PageShows(earlier, init, i, n) ==> PageShows(earlier, init + [last], i, n)
      ensures PageShows(earlier, init + [last], |init|, NumberFor(LogOf(earlier + init), last))
    {
      PageSnoc(earlier, init, last);
      ExposedCount(ExposeAll(EMPTY, earlier), init);
      ShownUnderSnoc(Exposed(ExposeAll(EMPTY, earlier), init), LogOf(earlier + init), i, n,
                     Exposure(last, NumberFor(LogOf(earlier + init), last)));
    }

    /** More results on a page do not change under which handle one is shown. */
    lemma {:induction false} PageShowsMore(earlier: seq<Result>, page: seq<Result>, k: nat, i: nat, n: nat)
      requires Injective() && k <= |page| && PageShows(earlier, page[..k], i, n)
      ensures PageShows(earlier, page, i, n)
      decreases |page| - k
    {
      if k < |page| {
        Grown(page, k);
        PageShowsSnoc(earlier, page[..k], page[k], i, n);
        PageShowsMore(earlier, page, k + 1, i, n);
      } else {
        All(page);
      }
    }

    /** The `i`-th result of a page is shown under the handle of its number. */
    lemma PageShown(earlier: seq<Result>, page: seq<Result>, i: nat)
      requires Injective() && i < |page|
      ensures PageShows(earlier, page, i, PageNumberOf(earlier, page, i))
    {
      PageShowsSnoc(earlier, page[..i], page[i], i, 0);
      Grown(page, i);
      PageShowsMore(earlier, page, i + 1, i, PageNumberOf(earlier, page, i));
    }

    lemma {:induction false} ExposedCount(maps: Maps, results: seq<Result>)
      ensures |Exposed(maps, results)| == |results|
    {
      if results != [] {
        ExposedCount(maps, results[..|results| - 1]);
      }
    }

    /** A whole page of results is exposed before it is shown. Its `i`-th handle is still live then
        exactly when at most a thousand numbers separate it from the end: refreshing a handle does
        not save it from being evicted by the rest of its own page. */
    lemma PageHandleLive(earlier: seq<Result>, page: seq<Result>, i: nat)
      requires Injective()
      requires i < |page|
      ensures |LogOf(earlier + page)| == |earlier| + |page|
      ensures var log := LogOf(earlier + page);
              handleOf(log[|earlier| + i].number) in ExposeAll(EMPTY, earlier + page).handles
              <==> Next(log) <= log[|earlier| + i].number + CAPACITY
    {
      LogLists(earlier + page);
      ExposeAllRefines(earlier + page);
      PageNumber(LogOf(earlier + page), |earlier| + i);
      LiveHandles(earlier + page, LogOf(earlier + page)[|earlier| + i].number);
    }

    lemma PageNumber(log: seq<Exposure>, i: nat)
      requires NumbersAreTargets(log) && i < |log|
      ensures 1 <= log[i].number < Next(log)
    {
      assert log[i] in log;
    }

    lemma RunSnoc(results: seq<Result>, result: Result)
      ensures ExposeAll(EMPTY, results + [result]) == Expose(ExposeAll(EMPTY, results), result)
      ensures LogOf(results + [result]) == LogOf(results) + [Exposure(result, NumberFor(LogOf(results), result))]
    {
      assert (results + [result])[..|results|] == results;
    }

    /** A document named like a handle takes that handle's place: the first handle of a session
        reaches another result, although it is still live. */
    lemma HandleShadowedByDocument(first: Result, second: Result)
      requires Injective()
      requires targetOf(first) != targetOf(second)
      requires first.documentId != Some(handleOf(1)) && second.documentId == Some(handleOf(1))
      ensures var maps := ExposeAll(EMPTY, [first] + [second]);
              && HandleFor(EMPTY, first) == handleOf(1)
              && handleOf(1) in maps.handles && maps.handles[handleOf(1)] == first.id
              && Resolve(maps, handleOf(1)) == second.id
    {
      RunSnoc([], first);
      RunSnoc([first], second);
      assert [] + [first] == [first];
      assert numberOf(handleOf(1)) == 1 && numberOf(handleOf(2)) == 2;
      var one := Admit(EMPTY, first);
      assert Expose(EMPTY, first) == one;
      assert Expose(one, second) == Admit(one, second);
    }

    /** The results `plain(0)` to `plain(k - 1)`. */
    ghost function FirstOf(plain: nat -> Result, k: nat): seq<Result> {
      if k == 0 then [] else FirstOf(plain, k - 1) + [plain(k - 1)]
    }

    ghost predicate TargetsDiffer(plain: nat -> Result) {
      forall i: nat, j: nat :: targetOf(plain(i)) == targetOf(plain(j)) ==> i == j
    }

    /** The first `k` numbers went to `plain(0)` to `plain(k - 1)`. */
    ghost predicate NumberedInOrder(plain: nat -> Result, log: seq<Exposure>, k: nat) {
      && Next(log) == k + 1
      && forall j: nat :: LatestOfTarget(log, targetOf(plain(j))) == if j < k then Some(Exposure(plain(j), j + 1)) else None
    }

    lemma {:induction false} FreshNumbers(plain: nat -> Result, k: nat)
      requires TargetsDiffer(plain)
      ensures |FirstOf(plain, k)| == k
      ensures NumberedInOrder(plain, LogOf(FirstOf(plain, k)), k)
    {
      if k == 0 {
        NoNumbers(plain);
      } else {
        FreshNumbers(plain, k - 1);
        FreshStep(plain, FirstOf(plain, k - 1), k);
      }
    }

    lemma NoNumbers(plain: nat -> Result)
      ensures NumberedInOrder(plain, LogOf([]), 0)
    {
    }

    lemma FreshStep(plain: nat -> Result, results: seq<Result>, k: nat)
      requires TargetsDiffer(plain)
      requires k > 0 && NumberedInOrder(plain, LogOf(results), k - 1)
      ensures NumberedInOrder(plain, LogOf(results + [plain(k - 1)]), k)
    {
      RunSnoc(results, plain(k - 1));
      FreshNumber(plain, LogOf(results), k);
    }

    lemma FreshNumber(plain: nat -> Result, log: seq<Exposure>, k: nat)
      requires TargetsDiffer(plain)
      requires k > 0 && NumberedInOrder(plain, log, k - 1)
      ensures NumberFor(log, plain(k - 1)) == k
      ensures NumberedInOrder(plain, log + [Exposure(plain(k - 1), k)], k)
    {
      var e := Exposure(plain(k - 1), k);
      assert LatestOfTarget(log, targetOf(plain(k - 1))) == None;
      NextSnoc(log, e);
      forall j: nat
        ensures LatestOfTarget(log + [e], targetOf(plain(j))) == if j < k then Some(Exposure(plain(j), j + 1)) else None
      {
        LatestOfTargetSnoc(log, e, targetOf(plain(j)));
      }
    }

    /** A page can show a handle that is already dead: with the table full, a page of the oldest
        target followed by a new one shows the oldest handle and evicts it. */
    lemma PageHandleEvicted(plain: nat -> Result)
      requires Injective()
      requires TargetsDiffer(plain)
      ensures var results := FirstOf(plain, CAPACITY) + [plain(0)] + [plain(CAPACITY)];
              && |Exposed(EMPTY, results)| == CAPACITY + 2
              && Exposed(EMPTY, results)[CAPACITY].id == handleOf(1)
              && handleOf(1) !in ExposeAll(EMPTY, results).handles
    {
      var full := FirstOf(plain, CAPACITY);
      var again := full + [plain(0)];
      FreshNumbers(plain, CAPACITY);
      LogLists(full);
      RunSnoc(full, plain(0));
      RunSnoc(again, plain(CAPACITY));
      OldestThenNew(plain, LogOf(full));
      ExposedHandles(again + [plain(CAPACITY)]);
      LiveHandles(again + [plain(CAPACITY)], 1);
    }

    lemma OldestThenNew(plain: nat -> Result, log: seq<Exposure>)
      requires TargetsDiffer(plain)
      requires NumberedInOrder(plain, log, CAPACITY)
      ensures NumberFor(log, plain(0)) == 1
      ensures var log' := log + [Exposure(plain(0), 1)];
              && NumberFor(log', plain(CAPACITY)) == CAPACITY + 1
              && Next(log' + [Exposure(plain(CAPACITY), CAPACITY + 1)]) == CAPACITY + 2
    {
      var first := Exposure(plain(0), 1);
      assert LatestOfTarget(log, targetOf(plain(0))) == Some(first);
      assert LatestOfTarget(log, targetOf(plain(CAPACITY))) == None;
      NextSnoc(log, first);
      LatestOfTargetSnoc(log, first, targetOf(plain(CAPACITY)));
      NextSnoc(log + [first], Exposure(plain(CAPACITY), CAPACITY + 1));
    }

    // -------------------------------------------------------------------------------------
    // Surviving the rest of a page
    // -------------------------------------------------------------------------------------

    /** No target of the given results is in the log. */
    ghost predicate UnseenFrom(plain: nat -> Result, k: nat, log: seq<Exposure>) {
      forall j: nat :: k <= j ==> LatestOfTarget(log, targetOf(plain(j))) == None
    }

    lemma NumberInRange(log: seq<Exposure>, result: Result)
      requires NumbersAreTargets(log)
      ensures 1 <= NumberFor(log, result) <= Next(log)
    {
      NextPositive(log);
      LatestOfTargetFound(log, targetOf(result));
    }

    lemma {:induction false} NextPositive(log: seq<Exposure>)
      ensures Next(log) >= 1
    {
      if log != [] {
        NextPositive(log[..|log| - 1]);
      }
    }

    /** The number to hand out after one more result. */
    ghost function NextAfter(log: seq<Exposure>, result: Result): nat {
      if NumberFor(log, result) < Next(log) then Next(log) else Next(log) + 1
    }

    lemma NextGrows(results: seq<Result>, result: Result)
      requires Injective()
      ensures Next(LogOf(results + [result])) == NextAfter(LogOf(results), result)
      ensures 1 <= NumberFor(LogOf(results), result) < Next(LogOf(results + [result]))
    {
      var log := LogOf(results);
      ExposeAllRefines(results);
      RunSnoc(results, result);
      NextSnoc(log, Exposure(result, NumberFor(log, result)));
      NumberInRange(log, result);
    }

    /** A result uses up at most one number. */
    lemma {:induction false} PageGrowth(earlier: seq<Result>, rest: seq<Result>)
      requires Injective()
      ensures Next(LogOf(earlier)) <= Next(LogOf(earlier + rest)) <= Next(LogOf(earlier)) + |rest|
    {
      if rest == [] {
        Nothing(earlier);
      } else {
        var init, last := rest[..|rest| - 1], rest[|rest| - 1];
        PageGrowth(earlier, init);
        NextGrows(earlier + init, last);
        AppendLast(earlier, rest);
      }
    }

    lemma AppendLast(earlier: seq<Result>, rest: seq<Result>)
      requires rest != []
      ensures earlier + rest == earlier + rest[..|rest| - 1] + [rest[|rest| - 1]]
    {
      Associate(earlier, rest[..|rest| - 1], [rest[|rest| - 1]]);
      Grown(rest, |rest| - 1);
      All(rest);
    }

    /** A result with a new target uses up one. */
    lemma UnseenStep(plain: nat -> Result, results: seq<Result>, k: nat)
      requires Injective() && TargetsDiffer(plain)
      requires UnseenFrom(plain, k, LogOf(results))
      ensures Next(LogOf(results + [plain(k)])) == Next(LogOf(results)) + 1
      ensures UnseenFrom(plain, k + 1, LogOf(results + [plain(k)]))
    {
      var log := LogOf(results);
      NextGrows(results, plain(k));
      RunSnoc(results, plain(k));
      assert LatestOfTarget(log, targetOf(plain(k))) == None;
      forall j: nat | k + 1 <= j
        ensures LatestOfTarget(LogOf(results + [plain(k)]), targetOf(plain(j))) == None
      {
        LatestOfTargetSnoc(log, Exposure(plain(k), NumberFor(log, plain(k))), targetOf(plain(j)));
      }
    }

    lemma {:induction false} UnseenGrowth(plain: nat -> Result, earlier: seq<Result>, k: nat)
      requires Injective() && TargetsDiffer(plain)
      requires UnseenFrom(plain, 0, LogOf(earlier))
      ensures |FirstOf(plain, k)| == k
      ensures Next(LogOf(earlier + FirstOf(plain, k))) == Next(LogOf(earlier)) + k
      ensures UnseenFrom(plain, k, LogOf(earlier + FirstOf(plain, k)))
    {
      if k == 0 {
        Nothing(earlier);
      } else {
        UnseenGrowth(plain, earlier, k - 1);
        UnseenStep(plain, earlier + FirstOf(plain, k - 1), k - 1);
        Associate(earlier, FirstOf(plain, k - 1), [plain(k - 1)]);
      }
    }

    /** The handle under which `again` is shown is live once the rest of its page has been exposed. */
    ghost predicate Survives(earlier: seq<Result>, again: Result, rest: seq<Result>) {
      handleOf(NumberFor(LogOf(earlier), again)) in ExposeAll(EMPTY, earlier + [again] + rest).handles
    }

    lemma SurvivesCounter(earlier: seq<Result>, again: Result, rest: seq<Result>)
      requires Injective()
      ensures Survives(earlier, again, rest) <==>
                Next(LogOf(earlier + [again] + rest)) <= NumberFor(LogOf(earlier), again) + CAPACITY
    {
      NextGrows(earlier, again);
      PageGrowth(earlier + [again], rest);
      LiveHandles(earlier + [again] + rest, NumberFor(LogOf(earlier), again));
    }

    /** Every page that goes on with `k` results leaves the handle of `again` live. */
    ghost predicate SurvivesAll(earlier: seq<Result>, again: Result, k: nat) {
      forall rest :: |rest| == k ==> Survives(earlier, again, rest)
    }

    /** Before the call it can be said whether a shown handle survives its page: it does, whatever the `k` results
        behind it are, if and only if the counter, which they move by at most `k`, stays within a thousand of
        its number. `plain` provides results with new targets. */
    lemma PageSurvivesIff(plain: nat -> Result, earlier: seq<Result>, again: Result, k: nat)
      requires Injective() && TargetsDiffer(plain)
      requires UnseenFrom(plain, 0, LogOf(earlier + [again]))
      ensures SurvivesAll(earlier, again, k) <==>
                NextAfter(LogOf(earlier), again) + k <= NumberFor(LogOf(earlier), again) + CAPACITY
    {
      NextGrows(earlier, again);
      forall rest | |rest| == k
        ensures Survives(earlier, again, rest) <==>
                  Next(LogOf(earlier + [again] + rest)) <= NumberFor(LogOf(earlier), again) + CAPACITY
        ensures Next(LogOf(earlier + [again] + rest)) <= NextAfter(LogOf(earlier), again) + k
      {
        SurvivesCounter(earlier, again, rest);
        PageGrowth(earlier + [again], rest);
      }
      UnseenGrowth(plain, earlier + [again], k);
      assert |FirstOf(plain, k)| == k;
      SurvivesCounter(earlier, again, FirstOf(plain, k));
    }
  }
}

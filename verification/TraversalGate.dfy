/** The gate of `extensions/pi.ts` around an unresolved traversal. Its state is parsed back out of the
    printed page; the tools refuse to do anything else until it is resolved. */
module TraversalGate {
  import opened Wrappers
  import opened Decimals
  import opened Sequences
  import opened HandleLog
  import opened RecallHandles
  import opened TokenEstimate
  import opened PagePatterns
  import opened TraversalPage

  datatype Pending = Pending(nextId: string, direction: Direction, visibleIds: set<string>)

  datatype State = State(maps: Maps, pending: Option<Pending>)

  /** A traversed result with its snippet or text. */
  datatype Found = Found(result: Result, text: string)

  datatype Traversal = Traversal(found: seq<Found>, details: Details)

  /** A tool call. What the archive would answer is part of it; no answer is an exception. `Consult` is
      a search or a gathering. */
  datatype Call =
    | Consult(answer: Option<seq<Result>>)
    | Traverse(id: string, direction: Direction, archive: string -> Option<Traversal>)
    | Recall(id: string)

  datatype Outcome =
    | Refused(continuationId: string, direction: Direction)
    | Failed
    | Listed(results: seq<Result>)
    | Printed(page: string)
    | Located(locator: string)

  function ResultsOf(found: seq<Found>): (results: seq<Result>)
    ensures |results| == |found|
  {
    seq(|found|, i requires 0 <= i < |found| => found[i].result)
  }

  /** The exposed results with their texts. */
  function Displayable(exposed: seq<Result>, found: seq<Found>): (traversed: seq<Traversed>)
    requires |exposed| == |found|
    ensures |traversed| == |found|
    ensures forall i :: 0 <= i < |found| ==> traversed[i] == Traversed(exposed[i].id, found[i].text)
  {
    seq(|found|, i requires 0 <= i < |found| => Traversed(exposed[i].id, found[i].text))
  }

  /** What the adapter makes of a printed page. */
  function ParsePending(page: string): Option<Pending> {
    var continuation := Exec(page);
    if continuation.Some? then
      Some(Pending(continuation.value.id, continuation.value.direction, set id | id in Ids(page)))
    else None
  }

  ghost function TraversedBy(maps: Maps, traversal: Traversal): (traversed: seq<Traversed>)
    ensures |traversed| == |traversal.found|
  {
    RECALL.ExposedCount(maps, ResultsOf(traversal.found));
    Displayable(RECALL.Exposed(maps, ResultsOf(traversal.found)), traversal.found)
  }

  /** One tool call. `tokenLimit` is the budget of a traversal page. */
  ghost function Step(u: Unicode, tokenLimit: Numeric, state: State, call: Call): (State, Outcome) {
    match call
    case Consult(answer) =>
      if state.pending.Some? then (state, Refusal(state.pending.value))
      else if answer.None? then (state, Failed)
      else (state.(maps := RECALL.ExposeAll(state.maps, answer.value)), Listed(RECALL.Exposed(state.maps, answer.value)))
    case Traverse(id, direction, archive) =>
      if state.pending.Some? && (id != state.pending.value.nextId || direction != state.pending.value.direction) then
        (state, Refusal(state.pending.value))
      else
        var answer := archive(RECALL.Resolve(state.maps, id));
        if answer.None? then (State(state.maps, None), Failed)
        else
          var page := TraversalText(u, answer.value.details, TraversedBy(state.maps, answer.value), tokenLimit);
          (State(RECALL.ExposeAll(state.maps, ResultsOf(answer.value.found)), ParsePending(page)), Printed(page))
    case Recall(id) =>
      if state.pending.Some? && id !in state.pending.value.visibleIds then (state, Refusal(state.pending.value))
      else (State(state.maps, None), Located(RECALL.Resolve(state.maps, id)))
  }

  function Refusal(pending: Pending): Outcome {
    Refused(pending.nextId, pending.direction)
  }

  class Gate {
    const table: HandleTable
    var pendingTraversal: Option<Pending>

    ghost function Contents(): State
      reads this, table
    {
      State(table.Contents(), pendingTraversal)
    }

    /** A session start. */
    constructor ()
      ensures Contents() == State(EMPTY, None) && fresh(table)
    {
      table := new HandleTable();
      pendingTraversal := None;
    }

    /** `context_window_search` and `context_window_gather` */
    method ConsultTool(u: Unicode, tokenLimit: Numeric, answer: Option<seq<Result>>) returns (outcome: Outcome)
      modifies table
      ensures (Contents(), outcome) == Step(u, tokenLimit, old(Contents()), Consult(answer))
    {
      if pendingTraversal.Some? {
        return Refusal(pendingTraversal.value);
      }
      if answer.None? {
        return Failed;
      }
      var exposed := table.ExposeRecallHandles(answer.value);
      outcome := Listed(exposed);
    }

    /** `context_window_traverse` */
    method TraverseTool(u: Unicode, tokenLimit: Numeric, id: string, direction: Direction, archive: string -> Option<Traversal>)
      returns (outcome: Outcome)
      modifies this, table
      ensures (Contents(), outcome) == Step(u, tokenLimit, old(Contents()), Traverse(id, direction, archive))
    {
      if pendingTraversal.Some? && (id != pendingTraversal.value.nextId || direction != pendingTraversal.value.direction) {
        return Refusal(pendingTraversal.value);
      }
      pendingTraversal := None;
      var locator := table.ResolveRecallHandle(id);
      var answer := archive(locator);
      if answer.None? {
        return Failed;
      }
      RECALL.ExposedCount(table.Contents(), ResultsOf(answer.value.found));
      var exposed := table.ExposeRecallHandles(ResultsOf(answer.value.found));
      var page := FormatTraversalResults(u, answer.value.details, Displayable(exposed, answer.value.found), tokenLimit);
      pendingTraversal := ParsePending(page);
      outcome := Printed(page);
    }

    /** `context_recall` */
    method RecallTool(u: Unicode, tokenLimit: Numeric, id: string) returns (outcome: Outcome)
      modifies this`pendingTraversal
      ensures (Contents(), outcome) == Step(u, tokenLimit, old(Contents()), Recall(id))
    {
      if pendingTraversal.Some? && id !in pendingTraversal.value.visibleIds {
        return Refusal(pendingTraversal.value);
      }
      if pendingTraversal.Some? && id in pendingTraversal.value.visibleIds {
        pendingTraversal := None;
      }
      var locator := table.ResolveRecallHandle(id);
      outcome := Located(locator);
    }
  }

  // ---------------------------------------------------------------------------------------
  // Handles are plain
  // ---------------------------------------------------------------------------------------

  ghost predicate PlainHandles(maps: Maps) {
    forall target :: target in maps.byTarget ==> PlainId(maps.byTarget[target])
  }

  lemma HandlePlain(n: nat)
    ensures PlainId(Handle(n))
  {
    var digits := Decimal(n);
    forall i | 0 <= i < |Handle(n)|
      ensures TraversalPage.Plain(Handle(n)[i])
    {
      if i > 0 {
        assert Handle(n)[i] == digits[i - 1] && digits[i - 1] in digits;
      }
    }
  }

  lemma HandleForPlain(maps: Maps, result: Result)
    requires PlainHandles(maps)
    ensures PlainId(RECALL.HandleFor(maps, result))
  {
    HandlePlain(maps.next);
  }

  lemma {:induction false} EvictPlain(maps: Maps)
    requires PlainHandles(maps)
    ensures PlainHandles(RECALL.Evict(maps))
    decreases |maps.order|
  {
    if |maps.order| > CAPACITY {
      EvictPlain(RECALL.DropOldest(maps));
    }
  }

  lemma ExposePlain(maps: Maps, result: Result)
    requires PlainHandles(maps)
    ensures PlainHandles(RECALL.Expose(maps, result))
  {
    HandleForPlain(maps, result);
    EvictPlain(RECALL.Admit(maps, result));
  }

  lemma {:induction false} ExposeAllPlain(maps: Maps, results: seq<Result>)
    requires PlainHandles(maps)
    ensures PlainHandles(RECALL.ExposeAll(maps, results))
    ensures forall i :: 0 <= i < |RECALL.Exposed(maps, results)| ==> PlainId(RECALL.Exposed(maps, results)[i].id)
  {
    if results != [] {
      var init := results[..|results| - 1];
      ExposeAllPlain(maps, init);
      HandleForPlain(RECALL.ExposeAll(maps, init), results[|results| - 1]);
      ExposePlain(RECALL.ExposeAll(maps, init), results[|results| - 1]);
    }
  }

  // ---------------------------------------------------------------------------------------
  // The gate over whole runs
  // ---------------------------------------------------------------------------------------

  /** What a page that shows the first `n` handles leaves pending. */
  function PendingAfter(details: Details, traversed: seq<Traversed>, n: nat): Option<Pending>
    requires n <= |traversed|
  {
    var continued := Continued(details, traversed, n);
    if continued.Some? then Some(Pending(continued.value.id, continued.value.direction, set i | 0 <= i < n :: traversed[i].id))
    else None
  }

  lemma VisibleIds(traversed: seq<Traversed>, n: nat)
    requires n <= |traversed|
    ensures (set id | id in Handles(traversed, n)) == set i | 0 <= i < n :: traversed[i].id
  {
    forall i | 0 <= i < n
      ensures traversed[i].id in Handles(traversed, n)
    {
      assert Handles(traversed, n)[i] == traversed[i].id;
    }
  }

  lemma ParsedPending(page: string, details: Details, traversed: seq<Traversed>, n: nat)
    requires n <= |traversed| && Ids(page) == Handles(traversed, n) && Exec(page) == Continued(details, traversed, n)
    ensures ParsePending(page) == PendingAfter(details, traversed, n)
  {
    VisibleIds(traversed, n);
  }

  /** Parsing the page amounts to remembering what was displayed. */
  lemma PageRemembered(u: Unicode, tokenLimit: Numeric, maps: Maps, traversal: Traversal)
    requires PlainHandles(maps) && PlainStatus(traversal.details)
    ensures var traversed := TraversedBy(maps, traversal);
            ParsePending(TraversalText(u, traversal.details, traversed, tokenLimit))
            == PendingAfter(traversal.details, traversed, Shown(u, traversal.details, traversed, tokenLimit))
  {
    var traversed := TraversedBy(maps, traversal);
    RECALL.ExposedCount(maps, ResultsOf(traversal.found));
    ExposeAllPlain(maps, ResultsOf(traversal.found));
    TraversalRoundTrip(u, traversal.details, traversed, tokenLimit);
    ParsedPending(TraversalText(u, traversal.details, traversed, tokenLimit), traversal.details, traversed,
                  Shown(u, traversal.details, traversed, tokenLimit));
  }

  /** The archive reports statuses without quotes. */
  ghost predicate PlainCall(call: Call) {
    call.Traverse? ==> forall locator :: call.archive(locator).Some? ==> PlainStatus(call.archive(locator).value.details)
  }

  /** What is pending can be continued and recalled. */
  ghost predicate Sound(state: State) {
    PlainHandles(state.maps) && NextVisible(state.pending)
  }

  ghost predicate NextVisible(pending: Option<Pending>) {
    pending.Some? ==> pending.value.nextId in pending.value.visibleIds
  }

  lemma PageSound(u: Unicode, tokenLimit: Numeric, maps: Maps, traversal: Traversal)
    requires PlainHandles(maps) && PlainStatus(traversal.details)
    ensures NextVisible(ParsePending(TraversalText(u, traversal.details, TraversedBy(maps, traversal), tokenLimit)))
  {
    var traversed := TraversedBy(maps, traversal);
    PageRemembered(u, tokenLimit, maps, traversal);
    PendingIsVisible(traversal.details, traversed, Shown(u, traversal.details, traversed, tokenLimit));
  }

  lemma StepSound(u: Unicode, tokenLimit: Numeric, state: State, call: Call)
    requires Sound(state) && PlainCall(call)
    ensures Sound(Step(u, tokenLimit, state, call).0)
  {
    match call
    case Consult(answer) =>
      if answer.Some? {
        ExposeAllPlain(state.maps, answer.value);
      }
    case Traverse(id, direction, archive) =>
      var answer := archive(RECALL.Resolve(state.maps, id));
      if answer.Some? {
        ExposeAllPlain(state.maps, ResultsOf(answer.value.found));
        PageSound(u, tokenLimit, state.maps, answer.value);
      }
    case Recall(id) =>
  }

  lemma PendingIsVisible(details: Details, traversed: seq<Traversed>, n: nat)
    requires n <= |traversed|
    ensures NextVisible(PendingAfter(details, traversed, n))
  {
    if n > 0 {
      assert Handles(traversed, n)[n - 1] == traversed[n - 1].id;
    }
  }

  ghost function Run(u: Unicode, tokenLimit: Numeric, calls: seq<Call>): State {
    if calls == [] then State(EMPTY, None)
    else Step(u, tokenLimit, Run(u, tokenLimit, calls[..|calls| - 1]), calls[|calls| - 1]).0
  }

  /** In every run, whatever the archive answers and whatever its texts say, the pending
      continuation is one of the displayed results. */
  lemma {:induction false} RunSound(u: Unicode, tokenLimit: Numeric, calls: seq<Call>)
    requires forall i :: 0 <= i < |calls| ==> PlainCall(calls[i])
    ensures Sound(Run(u, tokenLimit, calls))
  {
    if calls != [] {
      RunSound(u, tokenLimit, calls[..|calls| - 1]);
      StepSound(u, tokenLimit, Run(u, tokenLimit, calls[..|calls| - 1]), calls[|calls| - 1]);
    }
  }

  /** Whether a call resolves the pending traversal: by continuing it exactly or by recalling a
      displayed result. */
  predicate Resolves(pending: Pending, call: Call) {
    || (call.Traverse? && call.id == pending.nextId && call.direction == pending.direction)
    || (call.Recall? && call.id in pending.visibleIds)
  }

  /** A call is refused if and only if a traversal is pending that it does not resolve. A refusal changes
      nothing and names the way out; a resolution leaves pending at most what its own page shows. */
  lemma GateHolds(u: Unicode, tokenLimit: Numeric, state: State, call: Call)
    requires Sound(state) && PlainCall(call)
    ensures var (after, outcome) := Step(u, tokenLimit, state, call);
            if outcome.Refused? then
              && state.pending.Some? && !Resolves(state.pending.value, call)
              && after == state && outcome == Refusal(state.pending.value)
            else
              && (state.pending.Some? ==> Resolves(state.pending.value, call))
              && (call.Traverse? && outcome.Printed? ==>
                    var traversal := call.archive(RECALL.Resolve(state.maps, call.id)).value;
                    var traversed := TraversedBy(state.maps, traversal);
                    after.pending == PendingAfter(traversal.details, traversed, Shown(u, traversal.details, traversed, tokenLimit)))
              && (!outcome.Printed? ==> after.pending == None)
  {
    if call.Traverse? {
      var answer := call.archive(RECALL.Resolve(state.maps, call.id));
      if answer.Some? {
        PageRemembered(u, tokenLimit, state.maps, answer.value);
      }
    }
  }

  /** In every run, the way out that a refusal names is open, and so is recalling what it would
      continue from. */
  lemma WayOut(u: Unicode, tokenLimit: Numeric, calls: seq<Call>, call: Call, archive: string -> Option<Traversal>)
    requires forall i :: 0 <= i < |calls| ==> PlainCall(calls[i])
    requires Step(u, tokenLimit, Run(u, tokenLimit, calls), call).1.Refused?
    ensures var state := Run(u, tokenLimit, calls);
            var refused := Step(u, tokenLimit, state, call).1;
            && !Step(u, tokenLimit, state, Traverse(refused.continuationId, refused.direction, archive)).1.Refused?
            && Step(u, tokenLimit, state, Recall(refused.continuationId)).1.Located?
            && Step(u, tokenLimit, state, Recall(refused.continuationId)).0.pending == None
  {
    RunSound(u, tokenLimit, calls);
  }

  // ---------------------------------------------------------------------------------------
  // Where a continuation leads
  // ---------------------------------------------------------------------------------------

  /** The results that a call exposes. */
  ghost function ExposedBy(state: State, call: Call): seq<Result> {
    match call
    case Consult(answer) =>
      if state.pending.Some? || answer.None? then [] else answer.value
    case Traverse(id, direction, archive) =>
      var answer := archive(RECALL.Resolve(state.maps, id));
      if (state.pending.Some? && !Resolves(state.pending.value, call)) || answer.None? then [] else ResultsOf(answer.value.found)
    case Recall(_) => []
  }

  lemma StepExposes(u: Unicode, tokenLimit: Numeric, state: State, call: Call)
    ensures Step(u, tokenLimit, state, call).0.maps == RECALL.ExposeAll(state.maps, ExposedBy(state, call))
  {
  }

  /** All results that a run exposed. */
  ghost function History(u: Unicode, tokenLimit: Numeric, calls: seq<Call>): seq<Result> {
    if calls == [] then []
    else
      var init, last := calls[..|calls| - 1], calls[|calls| - 1];
      History(u, tokenLimit, init) + ExposedBy(Run(u, tokenLimit, init), last)
  }

  lemma {:induction false} RunExposes(u: Unicode, tokenLimit: Numeric, calls: seq<Call>)
    ensures Run(u, tokenLimit, calls).maps == RECALL.ExposeAll(EMPTY, History(u, tokenLimit, calls))
  {
    if calls != [] {
      var init, last := calls[..|calls| - 1], calls[|calls| - 1];
      RunExposes(u, tokenLimit, init);
      StepExposes(u, tokenLimit, Run(u, tokenLimit, init), last);
      RECALL.PageFollows(History(u, tokenLimit, init), ExposedBy(Run(u, tokenLimit, init), last));
    }
  }

  /** The counter, once the `i`-th result of a page has its number, and the results behind it stay within a
      thousand of that number. */
  ghost predicate WithinReach(maps: Maps, page: seq<Result>, i: nat)
    requires i < |page|
  {
    var before := RECALL.ExposeAll(maps, page[..i]);
    var n := HandleNumber(RECALL.HandleFor(before, page[i]));
    (if n < before.next then before.next else before.next + 1) + (|page| - 1 - i) <= n + CAPACITY
  }

  /** The continuation behind the `i`-th result of a page leads to the latest locator of that result if and only
      if no document of its name leads elsewhere and its handle is live, as it is if it was within reach. A
      handle that is not live is itself taken for the locator. */
  ghost predicate Leads(earlier: seq<Result>, page: seq<Result>, i: nat, maps: Maps, nextId: string)
    requires i < |page|
  {
    var log, n := RECALL.LogOf(earlier + page), RECALL.PageNumberOf(earlier, page, i);
    var shadow := RECALL.LatestOfDocument(log, nextId);
    var target := RECALL.LocatorOf(log, n);
    && nextId == Handle(n) && target.Some?
    && (WithinReach(RECALL.ExposeAll(EMPTY, earlier), page, i) ==> nextId in maps.handles)
    && (nextId in maps.byDocument <==> shadow.Some? && RECALL.Live(log, shadow.value.number))
    && (RECALL.Resolve(maps, nextId) == target.value <==>
          if nextId in maps.byDocument then RECALL.LocatorOf(log, shadow.value.number) == target
          else nextId in maps.handles || nextId == target.value)
    && (nextId !in maps.byDocument && nextId !in maps.handles ==> RECALL.Resolve(maps, nextId) == nextId)
  }

  lemma PageLeads(earlier: seq<Result>, page: seq<Result>, i: nat, maps: Maps)
    requires i < |page| && maps == RECALL.ExposeAll(EMPTY, earlier)
    ensures |RECALL.Exposed(maps, page)| == |page|
    ensures Leads(earlier, page, i, RECALL.ExposeAll(maps, page), RECALL.Exposed(maps, page)[i].id)
  {
    var n := RECALL.PageNumberOf(earlier, page, i);
    HandlesAreDistinct();
    RECALL.PageFollows(earlier, page);
    RECALL.ExposedCount(maps, page);
    RECALL.PageShown(earlier, page, i);
    RECALL.HandleReaches(earlier + page, n);
    RECALL.LiveHandles(earlier + page, n);
    RECALL.DocumentResolvesToLatest(earlier + page, Handle(n));
    if WithinReach(maps, page, i) {
      PageReach(earlier, page, i);
    }
  }

  lemma CutOut(a: seq<Result>, b: seq<Result>, i: nat)
    requires i < |b|
    ensures a + b[..i] + [b[i]] + b[i + 1..] == a + b
  {
    Whole(b, i + 1);
    Grown(b, i);
    Associate(a, b[..i], [b[i]]);
    Associate(a, b[..i + 1], b[i + 1..]);
  }

  /** A handle survives each particular page if it survives all of that length. */
  lemma ReachedHandle(earlier: seq<Result>, again: Result, rest: seq<Result>, handle: string, all: seq<Result>)
    requires LiveAfterAll(earlier, again, |rest|, handle) && all == earlier + [again] + rest
    ensures handle in RECALL.ExposeAll(EMPTY, all).handles
  {
  }

  lemma PageReach(earlier: seq<Result>, page: seq<Result>, i: nat)
    requires i < |page| && WithinReach(RECALL.ExposeAll(EMPTY, earlier), page, i)
    ensures Handle(RECALL.PageNumberOf(earlier, page, i)) in RECALL.ExposeAll(EMPTY, earlier + page).handles
  {
    HandlesAreDistinct();
    RECALL.PageFollows(earlier, page[..i]);
    RECALL.NextHandle(earlier + page[..i], page[i]);
    HandleSurvivesIff(earlier + page[..i], page[i], |page| - 1 - i);
    CutOut(earlier, page, i);
    ReachedHandle(earlier + page[..i], page[i], page[i + 1..], Handle(RECALL.PageNumberOf(earlier, page, i)), earlier + page);
  }

  /** How many results the page of a call displays. */
  ghost function ShownBy(u: Unicode, tokenLimit: Numeric, state: State, call: Call): nat {
    if call.Traverse? && call.archive(RECALL.Resolve(state.maps, call.id)).Some? then
      var traversal := call.archive(RECALL.Resolve(state.maps, call.id)).value;
      Shown(u, traversal.details, TraversedBy(state.maps, traversal), tokenLimit)
    else 0
  }

  /** The page of a call leaves a continuation. */
  ghost predicate Continues(u: Unicode, tokenLimit: Numeric, state: State, call: Call) {
    Step(u, tokenLimit, state, call).1.Printed? && Step(u, tokenLimit, state, call).0.pending.Some?
  }

  lemma PageContinuation(u: Unicode, tokenLimit: Numeric, maps: Maps, traversal: Traversal, page: seq<Result>, shown: nat)
    requires PlainHandles(maps) && PlainStatus(traversal.details)
    requires page == ResultsOf(traversal.found)
    requires shown == Shown(u, traversal.details, TraversedBy(maps, traversal), tokenLimit)
    ensures |page| == |RECALL.Exposed(maps, page)|
    ensures var pending := ParsePending(TraversalText(u, traversal.details, TraversedBy(maps, traversal), tokenLimit));
            pending.Some? ==> 0 < shown <= |page| && pending.value.nextId == RECALL.Exposed(maps, page)[shown - 1].id
  {
    RECALL.ExposedCount(maps, page);
    PageRemembered(u, tokenLimit, maps, traversal);
  }

  /** What a printed page does to the state, and which results it is about. */
  lemma StepPrints(u: Unicode, tokenLimit: Numeric, state: State, call: Call) returns (traversal: Traversal)
    requires Step(u, tokenLimit, state, call).1.Printed?
    ensures call.Traverse? && call.archive(RECALL.Resolve(state.maps, call.id)) == Some(traversal)
    ensures ExposedBy(state, call) == ResultsOf(traversal.found)
    ensures ShownBy(u, tokenLimit, state, call) == Shown(u, traversal.details, TraversedBy(state.maps, traversal), tokenLimit)
    ensures Step(u, tokenLimit, state, call).0.pending
         == ParsePending(TraversalText(u, traversal.details, TraversedBy(state.maps, traversal), tokenLimit))
  {
    traversal := call.archive(RECALL.Resolve(state.maps, call.id)).value;
  }

  /** The continuation is the last result that the page displays. */
  lemma ContinuationShown(u: Unicode, tokenLimit: Numeric, state: State, call: Call)
    requires Sound(state) && PlainCall(call) && Continues(u, tokenLimit, state, call)
    ensures var page, shown := ExposedBy(state, call), ShownBy(u, tokenLimit, state, call);
            && 0 < shown <= |page| == |RECALL.Exposed(state.maps, page)|
            && Step(u, tokenLimit, state, call).0.pending.value.nextId == RECALL.Exposed(state.maps, page)[shown - 1].id
  {
    var traversal := StepPrints(u, tokenLimit, state, call);
    PageContinuation(u, tokenLimit, state.maps, traversal, ExposedBy(state, call), ShownBy(u, tokenLimit, state, call));
  }

  lemma ContinuationLeadsFrom(u: Unicode, tokenLimit: Numeric, state: State, call: Call, earlier: seq<Result>)
    requires Sound(state) && PlainCall(call) && Continues(u, tokenLimit, state, call)
    requires state.maps == RECALL.ExposeAll(EMPTY, earlier)
    ensures var (after, _) := Step(u, tokenLimit, state, call);
            var page, shown := ExposedBy(state, call), ShownBy(u, tokenLimit, state, call);
            0 < shown <= |page| && Leads(earlier, page, shown - 1, after.maps, after.pending.value.nextId)
  {
    ContinuationShown(u, tokenLimit, state, call);
    StepExposes(u, tokenLimit, state, call);
    PageLeads(earlier, ExposedBy(state, call), ShownBy(u, tokenLimit, state, call) - 1, state.maps);
  }

  /** In every run, a printed page that leaves a continuation pending shows the result it continues from, and
      the continuation leads to that result exactly as said above. */
  lemma ContinuationLeads(u: Unicode, tokenLimit: Numeric, calls: seq<Call>, call: Call)
    requires forall i :: 0 <= i < |calls| ==> PlainCall(calls[i])
    requires PlainCall(call) && Continues(u, tokenLimit, Run(u, tokenLimit, calls), call)
    ensures var state := Run(u, tokenLimit, calls);
            var (after, _) := Step(u, tokenLimit, state, call);
            var page, shown := ExposedBy(state, call), ShownBy(u, tokenLimit, state, call);
            && 0 < shown <= |page|
            && Leads(History(u, tokenLimit, calls), page, shown - 1, after.maps, after.pending.value.nextId)
  {
    RunSound(u, tokenLimit, calls);
    RunExposes(u, tokenLimit, calls);
    ContinuationLeadsFrom(u, tokenLimit, Run(u, tokenLimit, calls), call, History(u, tokenLimit, calls));
  }
}

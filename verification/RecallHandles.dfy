/** The short recall handles of `extensions/pi.ts`: the adapter's naming of handles and targets, and the
    table it keeps. */
module RecallHandles {
  import opened Wrappers
  import opened Decimals
  import opened Sequences
  import opened HandleLog

  function Handle(n: nat): string {
    "r" + Decimal(n)
  }

  lemma HandleInjective(m: nat, n: nat)
    ensures Handle(m) == Handle(n) ==> m == n
  {
    assert Handle(m)[1..] == Decimal(m) && Handle(n)[1..] == Decimal(n);
    DecimalInjective(m, n);
  }

  ghost function HandleNumber(handle: string): nat {
    if exists n: nat :: Handle(n) == handle then var n: nat :| Handle(n) == handle; n else 0
  }

  function OrEmpty(text: Option<string>): string {
    if text.Some? then text.value else ""
  }

  /** The identity under which a handle is remembered: the exact document version, or the
      locator of a result that names no document. */
  function Target(result: Result): string {
    if result.documentId.Some? then
      OrEmpty(result.project) + "\0" + OrEmpty(result.sessionId) + "\0" + result.documentId.value + "\0"
      + Decimal(if result.version.Some? then result.version.value else 1)
    else result.id
  }

  ghost const RECALL := Naming(Handle, HandleNumber, Target)

  /** Handles are spelled apart, so everything proved in `HandleLog` holds for them. */
  lemma HandlesAreDistinct()
    ensures RECALL.Injective()
  {
    forall n: nat
      ensures RECALL.numberOf(RECALL.handleOf(n)) == n
    {
      HandleInjective(HandleNumber(Handle(n)), n);
    }
  }

  // ---------------------------------------------------------------------------------------
  // What a handle stands for
  // ---------------------------------------------------------------------------------------

  predicate NoNul(text: string) {
    forall i :: 0 <= i < |text| ==> text[i] != '\0'
  }

  predicate PlainParts(result: Result) {
    NoNul(OrEmpty(result.project)) && NoNul(OrEmpty(result.sessionId)) && NoNul(OrEmpty(result.documentId))
  }

  /** No separator occurs where it could be taken for one. */
  predicate Separable(a: Result, b: Result) {
    if a.documentId.Some? && b.documentId.Some? then PlainParts(a) && PlainParts(b)
    else if a.documentId.Some? then NoNul(b.id)
    else if b.documentId.Some? then NoNul(a.id)
    else true
  }

  /** The same version of the same document, or the same locator where no document is named. An absent project or
      session is an empty one, an absent version the first. */
  predicate SameSource(a: Result, b: Result) {
    if a.documentId.Some? && b.documentId.Some? then
      && a.documentId == b.documentId
      && (a.project == b.project || (a.project in {None, Some("")} && b.project in {None, Some("")}))
      && (a.sessionId == b.sessionId || (a.sessionId in {None, Some("")} && b.sessionId in {None, Some("")}))
      && (a.version == b.version || (a.version in {None, Some(1)} && b.version in {None, Some(1)}))
    else a.documentId == b.documentId == None && a.id == b.id
  }

  /** What stands in front of the first separator. */
  lemma FirstPart(a: string, x: string, b: string, y: string)
    requires NoNul(a) && NoNul(b) && a + (['\0'] + x) == b + (['\0'] + y)
    ensures a == b && x == y
  {
    var s, t := a + (['\0'] + x), b + (['\0'] + y);
    assert s[|a|] == '\0' && t[|b|] == '\0';
    assert forall i :: 0 <= i < |a| ==> s[i] == a[i];
    assert forall i :: 0 <= i < |b| ==> t[i] == b[i];
    assert |a| == |b|;
    assert a == s[..|a|] && b == t[..|b|];
    assert x == s[|a| + 1..] && y == t[|b| + 1..];
  }

  /** The target of a document, one part after the other. */
  lemma TargetParts(result: Result)
    requires result.documentId.Some?
    ensures Target(result)
         == OrEmpty(result.project) + (['\0'] + (OrEmpty(result.sessionId) + (['\0'] + (result.documentId.value + (['\0']
            + Decimal(if result.version.Some? then result.version.value else 1))))))
  {
    var p, s, d := OrEmpty(result.project), OrEmpty(result.sessionId), result.documentId.value;
    var v := Decimal(if result.version.Some? then result.version.value else 1);
    Associate(p, ['\0'], s);
    Associate(p + ['\0'] + s, ['\0'], d);
    Associate(p + ['\0'] + s + ['\0'] + d, ['\0'], v);
    Associate(p + (['\0'] + s), ['\0'] + d, ['\0'] + v);
    Associate(['\0'], d, ['\0'] + v);
    Associate(p, ['\0'] + s, ['\0'] + (d + (['\0'] + v)));
    Associate(['\0'], s, ['\0'] + (d + (['\0'] + v)));
  }

  lemma DocumentTargets(a: Result, b: Result)
    requires a.documentId.Some? && b.documentId.Some? && Separable(a, b)
    ensures Target(a) == Target(b) ==> SameSource(a, b)
  {
    if Target(a) == Target(b) {
      TargetParts(a);
      TargetParts(b);
      var v, w := if a.version.Some? then a.version.value else 1, if b.version.Some? then b.version.value else 1;
      PartsAgree(OrEmpty(a.project), OrEmpty(a.sessionId), a.documentId.value, Decimal(v),
                 OrEmpty(b.project), OrEmpty(b.sessionId), b.documentId.value, Decimal(w));
      DecimalInjective(v, w);
    }
  }

  lemma PartsAgree(p: string, s: string, d: string, v: string, q: string, t: string, e: string, w: string)
    requires NoNul(p) && NoNul(s) && NoNul(d) && NoNul(q) && NoNul(t) && NoNul(e)
    requires p + (['\0'] + (s + (['\0'] + (d + (['\0'] + v))))) == q + (['\0'] + (t + (['\0'] + (e + (['\0'] + w)))))
    ensures p == q && s == t && d == e && v == w
  {
    FirstPart(p, s + (['\0'] + (d + (['\0'] + v))), q, t + (['\0'] + (e + (['\0'] + w))));
    FirstPart(s, d + (['\0'] + v), t, e + (['\0'] + w));
    FirstPart(d, v, e, w);
  }

  /** A document has a separator in its target. */
  lemma DocumentHasNul(result: Result)
    requires result.documentId.Some?
    ensures !NoNul(Target(result))
  {
    TargetParts(result);
    assert Target(result)[|OrEmpty(result.project)|] == '\0';
  }

  /** Targets without separators inside their parts are equal if and only if the sources are the same. */
  lemma SameTargetIff(a: Result, b: Result)
    requires Separable(a, b)
    ensures Target(a) == Target(b) <==> SameSource(a, b)
  {
    if a.documentId.Some? && b.documentId.Some? {
      DocumentTargets(a, b);
    } else if a.documentId.Some? {
      DocumentHasNul(a);
    } else if b.documentId.Some? {
      DocumentHasNul(b);
    }
  }

  /** Of all results exposed since session start, two are shown under one handle only if they are the same version
      of the same document, or the same locator without one; and, as long as the handle of the first is live,
      always then. */
  lemma ShownAlikeIff(results: seq<Result>, i: nat, j: nat)
    requires i < j < |results| && Separable(results[i], results[j])
    ensures |RECALL.Exposed(EMPTY, results)| == |results|
    ensures RECALL.Exposed(EMPTY, results)[i].id == RECALL.Exposed(EMPTY, results)[j].id ==> SameSource(results[i], results[j])
    ensures var shown := RECALL.Exposed(EMPTY, results);
            shown[i].id in RECALL.ExposeAll(EMPTY, results[..j]).handles ==>
              (shown[i].id == shown[j].id <==> SameSource(results[i], results[j]))
  {
    HandlesAreDistinct();
    RECALL.ShownAlikeIff(results, i, j);
    SameTargetIff(results[i], results[j]);
  }

  /** Two results get one handle only if they have the same source, and always then, as long as the handle of the
      first is live. */
  ghost predicate ToldApart(results: seq<Result>, shown: seq<Result>, i: nat, j: nat)
    requires i < j < |results| == |shown|
  {
    Separable(results[i], results[j]) ==>
      && (shown[i].id == shown[j].id ==> SameSource(results[i], results[j]))
      && (SameSource(results[i], results[j]) && shown[i].id in RECALL.ExposeAll(EMPTY, results[..j]).handles ==>
            shown[i].id == shown[j].id)
  }

  lemma PairToldApart(results: seq<Result>, shown: seq<Result>, i: nat, j: nat)
    requires i < j < |results| == |shown| && shown == RECALL.Exposed(EMPTY, results)
    ensures ToldApart(results, shown, i, j)
  {
    if Separable(results[i], results[j]) {
      ShownAlikeIff(results, i, j);
    }
  }

  ghost predicate AllToldApart(results: seq<Result>, shown: seq<Result>) {
    |shown| == |results| && forall i, j :: 0 <= i < j < |results| ==> ToldApart(results, shown, i, j)
  }

  lemma ExposedToldApart(results: seq<Result>)
    ensures AllToldApart(results, RECALL.Exposed(EMPTY, results))
  {
    var shown := RECALL.Exposed(EMPTY, results);
    RECALL.ExposedCount(EMPTY, results);
    forall i, j | 0 <= i < j < |results|
      ensures ToldApart(results, shown, i, j)
    {
      PairToldApart(results, shown, i, j);
    }
  }

  /** A separator inside a part makes different documents one target. */
  lemma SeparatorConfuses() returns (a: Result, b: Result)
    ensures a.documentId == Some("d") && b.documentId == Some("d") && !SameSource(a, b) && Target(a) == Target(b)
  {
    a := Result("L1", Some("d"), Some("p"), Some("s\0"), None);
    b := Result("L2", Some("d"), Some("p\0s"), None, None);
    assert |a.project.value| != |b.project.value|;
    assert Target(a) == "p\0s\0\0d\0" + Decimal(1);
    assert Target(b) == "p\0s\0\0d\0" + Decimal(1);
  }

  /** The concrete case: a document called `r1` takes the place of the handle `r1`. */
  lemma DocumentShadowsHandle() returns (first: Result, second: Result)
    ensures first == Result("locator-1", Some("doc"), None, None, None)
    ensures second == Result("locator-2", Some("r1"), None, None, None)
    ensures var maps := RECALL.ExposeAll(EMPTY, [first] + [second]);
            && "r1" in maps.handles && maps.handles["r1"] == "locator-1"
            && RECALL.Resolve(maps, "r1") == "locator-2"
  {
    first := Result("locator-1", Some("doc"), None, None, None);
    second := Result("locator-2", Some("r1"), None, None, None);
    HandlesAreDistinct();
    assert Handle(1) == "r1";
    assert Target(first)[2] == 'd' && Target(second)[2] == 'r';
    RECALL.HandleShadowedByDocument(first, second);
  }

  /** Results without a document, one target each. */
  function Plain(i: nat): Result {
    Result(Decimal(i), None, None, None, None)
  }

  /** The concrete case: after a thousand results, a page can show `r1` and evict it. */
  lemma PageShowsEvictedHandle() returns (results: seq<Result>)
    ensures results == RECALL.FirstOf(Plain, CAPACITY) + [Plain(0)] + [Plain(CAPACITY)]
    ensures |RECALL.Exposed(EMPTY, results)| == CAPACITY + 2
    ensures RECALL.Exposed(EMPTY, results)[CAPACITY].id == "r1"
    ensures "r1" !in RECALL.ExposeAll(EMPTY, results).handles
  {
    results := RECALL.FirstOf(Plain, CAPACITY) + [Plain(0)] + [Plain(CAPACITY)];
    HandlesAreDistinct();
    forall i: nat, j: nat | Target(Plain(i)) == Target(Plain(j))
      ensures i == j
    {
      DecimalInjective(i, j);
    }
    assert RECALL.TargetsDiffer(Plain);
    assert Handle(1) == "r1";
    RECALL.PageHandleEvicted(Plain);
  }

  /** Results without a document whose identifiers are longer than `length`, one target each. */
  function LongPlain(length: nat): nat -> Result {
    (i: nat) => Result(Repeat('-', length + 1) + Decimal(i), None, None, None, None)
  }

  lemma LongPlainsDiffer(length: nat)
    ensures RECALL.TargetsDiffer(LongPlain(length))
  {
    forall i: nat, j: nat | RECALL.targetOf(LongPlain(length)(i)) == RECALL.targetOf(LongPlain(length)(j))
      ensures i == j
    {
      var dashes := Repeat('-', length + 1);
      assert (dashes + Decimal(i))[|dashes|..] == Decimal(i);
      assert (dashes + Decimal(j))[|dashes|..] == Decimal(j);
      DecimalInjective(i, j);
    }
  }

  /** The longest target of a log. */
  ghost function LongestTarget(log: seq<Exposure>): nat {
    if log == [] then 0
    else
      var before, last := LongestTarget(log[..|log| - 1]), |Target(log[|log| - 1].result)|;
      if last > before then last else before
  }

  lemma {:induction false} TargetsBounded(log: seq<Exposure>, e: Exposure)
    requires e in log
    ensures |Target(e.result)| <= LongestTarget(log)
  {
    var init, last := log[..|log| - 1], log[|log| - 1];
    assert log == init + [last];
    if e in init {
      TargetsBounded(init, e);
    }
  }

  /** Whatever was exposed, there are results with targets that were not. */
  lemma LongPlainsUnseen(log: seq<Exposure>)
    ensures RECALL.UnseenFrom(LongPlain(LongestTarget(log)), 0, log)
  {
    var plain := LongPlain(LongestTarget(log));
    forall j: nat
      ensures RECALL.LatestOfTarget(log, RECALL.targetOf(plain(j))) == None
    {
      RECALL.LatestOfTargetFound(log, RECALL.targetOf(plain(j)));
      var latest := RECALL.LatestOfTarget(log, RECALL.targetOf(plain(j)));
      if latest.Some? {
        TargetsBounded(log, latest.value);
      }
    }
  }

  /** The handle is live after every page that goes on with `k` results. */
  ghost predicate LiveAfterAll(earlier: seq<Result>, again: Result, k: nat, handle: string) {
    forall rest :: |rest| == k ==> handle in RECALL.ExposeAll(EMPTY, earlier + [again] + rest).handles
  }

  /** For the adapter, in terms of its table before the call: the handle of a result survives every page that goes
      on with `k` results if and only if the next number, once the result has its own, is at most a thousand less
      `k` above the number of the handle. */
  lemma HandleSurvivesIff(earlier: seq<Result>, again: Result, k: nat)
    ensures var maps := RECALL.ExposeAll(EMPTY, earlier);
            var handle := RECALL.HandleFor(maps, again);
            var n := HandleNumber(handle);
            LiveAfterAll(earlier, again, k, handle) <==> (if n < maps.next then maps.next else maps.next + 1) + k <= n + 1_000
  {
    var log := RECALL.LogOf(earlier + [again]);
    HandlesAreDistinct();
    LongPlainsDiffer(LongestTarget(log));
    LongPlainsUnseen(log);
    RECALL.PageSurvivesIff(LongPlain(LongestTarget(log)), earlier, again, k);
    RECALL.NextHandle(earlier, again);
    RECALL.ExposeAllRefines(earlier);
    HandleOfNumber(RECALL.NumberFor(RECALL.LogOf(earlier), again));
    forall rest | |rest| == k
      ensures RECALL.Survives(earlier, again, rest) <==>
                RECALL.HandleFor(RECALL.ExposeAll(EMPTY, earlier), again) in RECALL.ExposeAll(EMPTY, earlier + [again] + rest).handles
    {
    }
  }

  lemma HandleOfNumber(n: nat)
    ensures HandleNumber(Handle(n)) == n
  {
    HandleInjective(HandleNumber(Handle(n)), n);
  }

  // ---------------------------------------------------------------------------------------
  // The table as the adapter keeps it
  // ---------------------------------------------------------------------------------------

  lemma RunStep(results: seq<Result>, i: nat, maps: Maps)
    requires i < |results|
    ensures RECALL.ExposeAll(maps, results[..i + 1]) == RECALL.Expose(RECALL.ExposeAll(maps, results[..i]), results[i])
    ensures RECALL.Exposed(maps, results[..i + 1])
         == RECALL.Exposed(maps, results[..i])
            + [results[i].(id := RECALL.HandleFor(RECALL.ExposeAll(maps, results[..i]), results[i]))]
  {
    assert results[..i + 1][..i] == results[..i];
  }

  class HandleTable {
    var handleOrder: seq<string>
    var recallHandles: map<string, string>
    var recallHandleTargets: map<string, string>
    var recallHandleByTarget: map<string, string>
    var recallHandleByDocumentId: map<string, string>
    var nextRecallHandle: nat

    ghost function Contents(): Maps
      reads this
    {
      Maps(handleOrder, recallHandles, recallHandleTargets, recallHandleByTarget, recallHandleByDocumentId, nextRecallHandle)
    }

    /** A session start. */
    constructor ()
      ensures Contents() == EMPTY
    {
      handleOrder, recallHandles, recallHandleTargets := [], map[], map[];
      recallHandleByTarget, recallHandleByDocumentId, nextRecallHandle := map[], map[], 1;
    }

    method ForgetDocuments(oldest: string)
      modifies this`recallHandleByDocumentId
      ensures recallHandleByDocumentId
           == map d | d in old(recallHandleByDocumentId) && old(recallHandleByDocumentId)[d] != oldest
                :: old(recallHandleByDocumentId)[d]
    {
      var before := recallHandleByDocumentId;
      var remaining := before.Keys;
      while remaining != {}
        invariant remaining <= before.Keys
        invariant recallHandleByDocumentId == map d | d in before && (d in remaining || before[d] != oldest) :: before[d]
        decreases remaining
      {
        var documentId :| documentId in remaining;
        remaining := remaining - {documentId};
        if before[documentId] == oldest {
          recallHandleByDocumentId := recallHandleByDocumentId - {documentId};
        }
      }
    }

    method EvictOldest()
      requires handleOrder != []
      modifies this
      ensures Contents() == RECALL.DropOldest(old(Contents()))
    {
      var oldest := handleOrder[0];
      handleOrder := handleOrder[1..];
      recallHandles := recallHandles - {oldest};
      if oldest in recallHandleTargets {
        recallHandleByTarget := recallHandleByTarget - {recallHandleTargets[oldest]};
      }
      recallHandleTargets := recallHandleTargets - {oldest};
      ForgetDocuments(oldest);
    }

    /** The part of the callback before the eviction loop. */
    method AdmitRecallHandle(result: Result) returns (handle: string)
      modifies this
      ensures Contents() == RECALL.Admit(old(Contents()), result)
      ensures handle == RECALL.HandleFor(old(Contents()), result)
    {
      var target := Target(result);
      if target in recallHandleByTarget {
        handle := recallHandleByTarget[target];
      } else {
        handle := Handle(nextRecallHandle);
        nextRecallHandle := nextRecallHandle + 1;
        recallHandleByTarget := recallHandleByTarget[target := handle];
        recallHandleTargets := recallHandleTargets[handle := target];
      }
      if handle !in recallHandles {
        handleOrder := handleOrder + [handle];
      }
      recallHandles := recallHandles[handle := result.id];
      if result.documentId.Some? {
        recallHandleByDocumentId := recallHandleByDocumentId[result.documentId.value := handle];
      }
    }

    /** The callback that `exposeRecallHandles` maps over its results. */
    method ExposeRecallHandle(result: Result) returns (handle: string)
      modifies this
      ensures Contents() == RECALL.Expose(old(Contents()), result)
      ensures handle == RECALL.HandleFor(old(Contents()), result)
    {
      handle := AdmitRecallHandle(result);
      while |handleOrder| > CAPACITY
        invariant RECALL.Evict(Contents()) == RECALL.Expose(old(Contents()), result)
        decreases |handleOrder|
      {
        EvictOldest();
      }
    }

    method ExposeRecallHandles(results: seq<Result>) returns (exposed: seq<Result>)
      modifies this
      ensures Contents() == RECALL.ExposeAll(old(Contents()), results)
      ensures exposed == RECALL.Exposed(old(Contents()), results)
      ensures old(Contents()) == EMPTY ==> AllToldApart(results, exposed)
    {
      exposed := [];
      for index := 0 to |results|
        invariant Contents() == RECALL.ExposeAll(old(Contents()), results[..index])
        invariant exposed == RECALL.Exposed(old(Contents()), results[..index])
      {
        var handle := ExposeRecallHandle(results[index]);
        exposed := exposed + [results[index].(id := handle)];
        RunStep(results, index, old(Contents()));
      }
      assert results[..|results|] == results;
      ExposedToldApart(results);
    }

    method ResolveRecallHandle(id: string) returns (locator: string)
      ensures locator == RECALL.Resolve(Contents(), id)
      ensures locator in recallHandles.Values || locator == id
      ensures id in recallHandles && id !in recallHandleByDocumentId ==> locator == recallHandles[id]
    {
      var handle := if id in recallHandleByDocumentId then recallHandleByDocumentId[id] else id;
      locator := if handle in recallHandles then recallHandles[handle] else id;
    }
  }
}

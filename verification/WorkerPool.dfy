/** The worker pool of `eval/agent-memory/score-longmemeval.js`. Workers share a cursor and a buffer of
    judgments; between two awaits a worker runs undisturbed, and the order in which they resume is free. */
module WorkerPool {
  import opened Wrappers
  import opened Sequences
  import opened JudgeSummary

  /** What a judge says about a case. */
  datatype Verdict = Verdict(answer: bool, usage: Usage)

  /** A worker awaits the judge on a case, has run out of cases, or was ended by a judge that threw. */
  datatype Worker = Judging(index: nat) | Finished | Failed(index: nat)

  datatype Checkpoint = Checkpoint(judgments: seq<Judgment>, summary: Option<Summary>)

  /** `calls` lists the cases handed to a judge, `checkpoints` the artifacts written. */
  datatype Pool = Pool(
    cursor: nat,
    slots: seq<Option<Judgment>>,
    workers: seq<Worker>,
    calls: seq<nat>,
    checkpoints: seq<Checkpoint>)

  /** A judge is done with the case of a worker, or throws. */
  datatype Event = Event(worker: nat, verdict: Option<Verdict>)

  // ---------------------------------------------------------------------------------------
  // The pool on values
  // ---------------------------------------------------------------------------------------

  function Judged(entry: Case, verdict: Verdict): Judgment {
    Judgment(entry.questionId, entry.questionType, verdict.answer, verdict.usage)
  }

  /** `judgments.filter(Boolean)` */
  function Completed(slots: seq<Option<Judgment>>): seq<Judgment> {
    if slots == [] then []
    else Completed(slots[..|slots| - 1]) + if slots[|slots| - 1].Some? then [slots[|slots| - 1].value] else []
  }

  function CheckpointOf(cases: seq<Case>, slots: seq<Option<Judgment>>): Checkpoint {
    var completed := Completed(slots);
    Checkpoint(completed, if |completed| == |cases| then Some(SummaryOf(cases, completed)) else None)
  }

  /** The top of a worker's loop: it takes the next case, if there is one. */
  function Take(p: Pool, w: nat): Pool
    requires w < |p.workers|
  {
    if p.cursor >= |p.slots| then p.(cursor := p.cursor + 1, workers := p.workers[w := Finished])
    else p.(cursor := p.cursor + 1, workers := p.workers[w := Judging(p.cursor)], calls := p.calls + [p.cursor])
  }

  function NoJudgments(n: nat): seq<Option<Judgment>> {
    seq(n, _ => None)
  }

  /** The first `count` workers, each run up to its first await. */
  function Spawned(cases: seq<Case>, count: nat): Pool {
    if count == 0 then Pool(0, NoJudgments(|cases|), [], [], [])
    else
      var p := Spawned(cases, count - 1);
      Take(p.(workers := p.workers + [Finished]), |p.workers|)
  }

  function Store(cases: seq<Case>, p: Pool, index: nat, verdict: Verdict): Pool
    requires index < |p.slots| == |cases|
  {
    var slots := p.slots[index := Some(Judged(cases[index], verdict))];
    p.(slots := slots, checkpoints := p.checkpoints + [CheckpointOf(cases, slots)])
  }

  /** One worker resumes. Events for workers that await nothing do not occur. */
  function Resume(cases: seq<Case>, p: Pool, event: Event): Pool {
    if event.worker >= |p.workers| || !p.workers[event.worker].Judging? then p
    else
      var index := p.workers[event.worker].index;
      if event.verdict.None? then p.(workers := p.workers[event.worker := Failed(index)])
      else if index < |p.slots| == |cases| then Take(Store(cases, p, index, event.verdict.value), event.worker)
      else p
  }

  function Start(cases: seq<Case>, concurrency: nat): Pool {
    Spawned(cases, if concurrency <= |cases| then concurrency else |cases|)
  }

  function Run(cases: seq<Case>, concurrency: nat, events: seq<Event>): Pool {
    if events == [] then Start(cases, concurrency)
    else Resume(cases, Run(cases, concurrency, events[..|events| - 1]), events[|events| - 1])
  }

  // ---------------------------------------------------------------------------------------
  // The pool in place
  // ---------------------------------------------------------------------------------------

  class Scorer {
    const cases: seq<Case>
    const judgments: array<Option<Judgment>>
    var cursor: nat
    var workers: seq<Worker>
    var calls: seq<nat>
    var checkpoints: seq<Checkpoint>

    ghost predicate Valid()
      reads this
    {
      judgments.Length == |cases|
    }

    ghost function Contents(): Pool
      reads this, judgments
    {
      Pool(cursor, judgments[..], workers, calls, checkpoints)
    }

    constructor (cases: seq<Case>, concurrency: nat)
      ensures Valid() && fresh(judgments) && this.cases == cases
      ensures Contents() == Start(cases, concurrency)
    {
      this.cases := cases;
      judgments := new Option<Judgment>[|cases|](_ => None);
      cursor, workers, calls, checkpoints := 0, [], [], [];
      new;
      var count := if concurrency <= |cases| then concurrency else |cases|;
      assert judgments[..] == NoJudgments(|cases|);
      for w := 0 to count
        invariant Valid() && this.cases == cases && |workers| == w
        invariant Contents() == Spawned(cases, w)
        modifies this
      {
        workers := workers + [Finished];
        TakeCase(w);
      }
    }

    method TakeCase(w: nat)
      requires Valid() && w < |workers|
      modifies this
      ensures Contents() == Take(old(Contents()), w)
    {
      var index := cursor;
      cursor := cursor + 1;
      if index >= |cases| {
        workers := workers[w := Finished];
        return;
      }
      workers := workers[w := Judging(index)];
      calls := calls + [index];
    }

    method WriteCheckpoint()
      requires Valid()
      modifies this`checkpoints
      ensures checkpoints == old(checkpoints) + [CheckpointOf(cases, judgments[..])]
    {
      var completed := [];
      for i := 0 to judgments.Length
        invariant completed == Completed(judgments[..i])
      {
        assert judgments[..i + 1][..i] == judgments[..i];
        if judgments[i].Some? {
          completed := completed + [judgments[i].value];
        }
      }
      assert judgments[..judgments.Length] == judgments[..];
      var summary := None;
      if |completed| == |cases| {
        var whole := Summarize(cases, completed);
        summary := Some(whole);
      }
      checkpoints := checkpoints + [Checkpoint(completed, summary)];
    }

    /** The judge of worker `event.worker` is done. */
    method OnJudge(event: Event)
      requires Valid()
      requires event.worker < |workers| && workers[event.worker].Judging? && workers[event.worker].index < |cases|
      modifies this, judgments
      ensures Contents() == Resume(cases, old(Contents()), event)
    {
      var index := workers[event.worker].index;
      if event.verdict.None? {
        workers := workers[event.worker := Failed(index)];
        return;
      }
      judgments[index] := Some(Judged(cases[index], event.verdict.value));
      WriteCheckpoint();
      assert Contents() == Store(cases, old(Contents()), index, event.verdict.value);
      TakeCase(event.worker);
    }
  }

  // ---------------------------------------------------------------------------------------
  // What every interleaving keeps
  // ---------------------------------------------------------------------------------------

  /** The cases that have been handed out so far. */
  function Taken(p: Pool): nat {
    if p.cursor <= |p.slots| then p.cursor else |p.slots|
  }

  predicate Holds(worker: Worker, index: nat) {
    worker == Judging(index) || worker == Failed(index)
  }

  ghost predicate HeldBy(p: Pool, index: nat) {
    exists w :: 0 <= w < |p.workers| && Holds(p.workers[w], index)
  }

  /** Cases are handed out in order, each once. */
  ghost predicate CalledInOrder(p: Pool) {
    |p.calls| == Taken(p) && forall i :: 0 <= i < |p.calls| ==> p.calls[i] == i
  }

  /** A slot is filled by a judgment of its own case; while it is empty its case is still to come or in one
      worker's hands. */
  ghost predicate SlotsOwned(cases: seq<Case>, p: Pool) {
    && |p.slots| == |cases|
    && (forall i :: 0 <= i < |cases| && p.slots[i].Some? ==>
          i < p.cursor && p.slots[i].value.questionId == cases[i].questionId && p.slots[i].value.questionType == cases[i].questionType)
    && (forall i: nat :: i < Taken(p) && p.slots[i].None? ==> HeldBy(p, i))
  }

  ghost predicate WorkersApart(p: Pool) {
    && (forall w :: 0 <= w < |p.workers| && !p.workers[w].Finished? ==>
          p.workers[w].index < Taken(p) && p.slots[p.workers[w].index].None?)
    && (forall v, w :: 0 <= v < w < |p.workers| && !p.workers[v].Finished? && !p.workers[w].Finished? ==>
          p.workers[v].index != p.workers[w].index)
    && (forall w :: 0 <= w < |p.workers| && p.workers[w].Finished? ==> p.cursor > |p.slots|)
  }

  ghost predicate Invariant(cases: seq<Case>, p: Pool) {
    CalledInOrder(p) && SlotsOwned(cases, p) && WorkersApart(p)
  }

  ghost predicate HeldBut(p: Pool, index: nat, w: nat) {
    exists v :: 0 <= v < |p.workers| && v != w && Holds(p.workers[v], index)
  }

  ghost predicate SlotsOwnedBut(cases: seq<Case>, p: Pool, w: nat) {
    && |p.slots| == |cases|
    && (forall i :: 0 <= i < |cases| && p.slots[i].Some? ==>
          i < p.cursor && p.slots[i].value.questionId == cases[i].questionId && p.slots[i].value.questionType == cases[i].questionType)
    && (forall i: nat :: i < Taken(p) && p.slots[i].None? ==> HeldBut(p, i, w))
  }

  ghost predicate WorkersApartBut(p: Pool, w: nat) {
    && (forall v :: 0 <= v < |p.workers| && v != w && !p.workers[v].Finished? ==>
          p.workers[v].index < Taken(p) && p.slots[p.workers[v].index].None?)
    && (forall u, v :: 0 <= u < v < |p.workers| && u != w && v != w && !p.workers[u].Finished? && !p.workers[v].Finished? ==>
          p.workers[u].index != p.workers[v].index)
    && (forall v :: 0 <= v < |p.workers| && v != w && p.workers[v].Finished? ==> p.cursor > |p.slots|)
  }

  /** What holds while worker `w` is at the top of its loop. */
  ghost predicate InvariantBut(cases: seq<Case>, p: Pool, w: nat) {
    w < |p.workers| && CalledInOrder(p) && SlotsOwnedBut(cases, p, w) && WorkersApartBut(p, w)
  }

  lemma TakeKeeps(cases: seq<Case>, p: Pool, w: nat)
    requires InvariantBut(cases, p, w)
    ensures Invariant(cases, Take(p, w))
  {
    var q := Take(p, w);
    forall i: nat | i < Taken(q) && q.slots[i].None?
      ensures HeldBy(q, i)
    {
      if i == p.cursor {
        assert Holds(q.workers[w], i);
      } else {
        assert HeldBut(p, i, w);
        var v :| 0 <= v < |p.workers| && v != w && Holds(p.workers[v], i);
        assert Holds(q.workers[v], i);
      }
    }
  }

  lemma StoreKeepsSlots(cases: seq<Case>, p: Pool, q: Pool, w: nat, judgment: Judgment)
    requires SlotsOwned(cases, p) && WorkersApart(p)
    requires w < |p.workers| && p.workers[w].Judging?
    requires p.workers[w].index < |p.slots|
    requires q.slots == p.slots[p.workers[w].index := Some(judgment)] && q.workers == p.workers && q.cursor == p.cursor
    requires judgment.questionId == cases[p.workers[w].index].questionId
    requires judgment.questionType == cases[p.workers[w].index].questionType
    ensures SlotsOwnedBut(cases, q, w)
  {
    forall i: nat | i < Taken(q) && q.slots[i].None?
      ensures HeldBut(q, i, w)
    {
      assert HeldBy(p, i);
      var v :| 0 <= v < |p.workers| && Holds(p.workers[v], i);
      assert Holds(q.workers[v], i);
    }
  }

  lemma StoreKeepsWorkers(p: Pool, q: Pool, w: nat, judgment: Judgment)
    requires WorkersApart(p)
    requires w < |p.workers| && p.workers[w].Judging?
    requires p.workers[w].index < |p.slots|
    requires q.slots == p.slots[p.workers[w].index := Some(judgment)] && q.workers == p.workers && q.cursor == p.cursor
    ensures WorkersApartBut(q, w)
  {
    forall v | 0 <= v < |q.workers| && v != w && !q.workers[v].Finished?
      ensures q.workers[v].index < Taken(q) && q.slots[q.workers[v].index].None?
    {
      assert q.workers[v].index != p.workers[w].index;
    }
  }

  lemma StoreKeeps(cases: seq<Case>, p: Pool, w: nat, verdict: Verdict)
    requires Invariant(cases, p)
    requires w < |p.workers| && p.workers[w].Judging?
    ensures p.workers[w].index < |p.slots| == |cases|
    ensures InvariantBut(cases, Store(cases, p, p.workers[w].index, verdict), w)
  {
    var index := p.workers[w].index;
    StoreKeepsSlots(cases, p, Store(cases, p, index, verdict), w, Judged(cases[index], verdict));
    StoreKeepsWorkers(p, Store(cases, p, index, verdict), w, Judged(cases[index], verdict));
  }

  lemma FailKeeps(cases: seq<Case>, p: Pool, w: nat)
    requires Invariant(cases, p)
    requires w < |p.workers| && p.workers[w].Judging?
    ensures Invariant(cases, p.(workers := p.workers[w := Failed(p.workers[w].index)]))
  {
    var q := p.(workers := p.workers[w := Failed(p.workers[w].index)]);
    forall i: nat | i < Taken(q) && q.slots[i].None?
      ensures HeldBy(q, i)
    {
      assert HeldBy(p, i);
      var v :| 0 <= v < |p.workers| && Holds(p.workers[v], i);
      assert Holds(q.workers[v], i);
    }
  }

  lemma ResumeKeeps(cases: seq<Case>, p: Pool, event: Event)
    requires Invariant(cases, p)
    ensures Invariant(cases, Resume(cases, p, event))
  {
    if event.worker < |p.workers| && p.workers[event.worker].Judging? {
      if event.verdict.None? {
        FailKeeps(cases, p, event.worker);
      } else {
        StoreKeeps(cases, p, event.worker, event.verdict.value);
        TakeKeeps(cases, Store(cases, p, p.workers[event.worker].index, event.verdict.value), event.worker);
      }
    }
  }

  lemma {:induction false} SpawnedKeeps(cases: seq<Case>, count: nat)
    ensures Invariant(cases, Spawned(cases, count)) && |Spawned(cases, count).workers| == count
  {
    if count > 0 {
      SpawnedKeeps(cases, count - 1);
      var p := Spawned(cases, count - 1);
      var q := p.(workers := p.workers + [Finished]);
      forall i: nat | i < Taken(q) && q.slots[i].None?
        ensures HeldBut(q, i, |p.workers|)
      {
        assert HeldBy(p, i);
        var v :| 0 <= v < |p.workers| && Holds(p.workers[v], i);
        assert Holds(q.workers[v], i);
      }
      TakeKeeps(cases, q, |p.workers|);
    }
  }

  lemma {:induction false} RunKeeps(cases: seq<Case>, concurrency: nat, events: seq<Event>)
    ensures Invariant(cases, Run(cases, concurrency, events))
    ensures |Run(cases, concurrency, events).workers| == if concurrency <= |cases| then concurrency else |cases|
  {
    if events == [] {
      SpawnedKeeps(cases, if concurrency <= |cases| then concurrency else |cases|);
    } else {
      RunKeeps(cases, concurrency, events[..|events| - 1]);
      ResumeKeeps(cases, Run(cases, concurrency, events[..|events| - 1]), events[|events| - 1]);
    }
  }

  // ---------------------------------------------------------------------------------------
  // What the judges said
  // ---------------------------------------------------------------------------------------

  /** A judge's verdict on the case of a worker that resumed with it. */
  datatype Delivery = Delivery(index: nat, verdict: Verdict)

  ghost function DeliveredBy(p: Pool, event: Event): seq<Delivery> {
    if event.worker < |p.workers| && p.workers[event.worker].Judging? && event.verdict.Some? then
      [Delivery(p.workers[event.worker].index, event.verdict.value)]
    else []
  }

  /** All verdicts of a run, in the order in which they came. */
  ghost function Deliveries(cases: seq<Case>, concurrency: nat, events: seq<Event>): seq<Delivery> {
    if events == [] then []
    else
      var init := events[..|events| - 1];
      Deliveries(cases, concurrency, init) + DeliveredBy(Run(cases, concurrency, init), events[|events| - 1])
  }

  /** The verdict on a case, if it has come. */
  ghost function VerdictOn(deliveries: seq<Delivery>, index: nat): Option<Verdict> {
    if deliveries == [] then None
    else
      var last := deliveries[|deliveries| - 1];
      if last.index == index then Some(last.verdict) else VerdictOn(deliveries[..|deliveries| - 1], index)
  }

  /** The judgment repeats the case and the verdict. */
  ghost predicate Says(judgment: Judgment, entry: Case, verdict: Verdict) {
    && judgment.questionId == entry.questionId && judgment.questionType == entry.questionType
    && judgment.answer == verdict.answer && judgment.usage == verdict.usage
  }

  ghost predicate SlotSays(slot: Option<Judgment>, entry: Case, verdict: Option<Verdict>) {
    (slot.Some? <==> verdict.Some?) && (slot.Some? ==> Says(slot.value, entry, verdict.value))
  }

  /** No case was decided twice, and each slot holds what its own judge said, or nothing. */
  ghost predicate FilledBy(cases: seq<Case>, slots: seq<Option<Judgment>>, deliveries: seq<Delivery>) {
    && |slots| == |cases|
    && (forall d :: 0 <= d < |deliveries| ==> deliveries[d].index < |cases|)
    && (forall d, e :: 0 <= d < e < |deliveries| ==> deliveries[d].index != deliveries[e].index)
    && (forall i: nat :: i < |cases| ==> SlotSays(slots[i], cases[i], VerdictOn(deliveries, i)))
  }

  lemma {:induction false} VerdictFound(deliveries: seq<Delivery>, index: nat)
    ensures VerdictOn(deliveries, index).Some? <==> exists d :: 0 <= d < |deliveries| && deliveries[d].index == index
  {
    if deliveries != [] {
      var init := deliveries[..|deliveries| - 1];
      VerdictFound(init, index);
      assert forall d :: 0 <= d < |init| ==> init[d] == deliveries[d];
    }
  }

  lemma VerdictLast(deliveries: seq<Delivery>, last: Delivery, index: nat)
    ensures VerdictOn(deliveries + [last], index)
         == if last.index == index then Some(last.verdict) else VerdictOn(deliveries, index)
  {
    assert (deliveries + [last])[..|deliveries|] == deliveries;
  }

  lemma StoreFills(cases: seq<Case>, slots: seq<Option<Judgment>>, deliveries: seq<Delivery>, last: Delivery)
    requires FilledBy(cases, slots, deliveries)
    requires last.index < |slots| && slots[last.index].None?
    ensures FilledBy(cases, slots[last.index := Some(Judged(cases[last.index], last.verdict))], deliveries + [last])
  {
    assert SlotSays(slots[last.index], cases[last.index], VerdictOn(deliveries, last.index));
    VerdictFound(deliveries, last.index);
    forall i: nat
      ensures VerdictOn(deliveries + [last], i) == if last.index == i then Some(last.verdict) else VerdictOn(deliveries, i)
    {
      VerdictLast(deliveries, last, i);
    }
  }

  // ---------------------------------------------------------------------------------------
  // Checkpoints
  // ---------------------------------------------------------------------------------------

  /** The judgments repeat the verdicts on the first `n` cases, as far as they have come, in case order. */
  ghost predicate Lists(cases: seq<Case>, n: nat, deliveries: seq<Delivery>, judgments: seq<Judgment>)
    requires n <= |cases|
  {
    if n == 0 then judgments == []
    else
      var verdict := VerdictOn(deliveries, n - 1);
      if verdict.None? then Lists(cases, n - 1, deliveries, judgments)
      else
        && judgments != []
        && Says(judgments[|judgments| - 1], cases[n - 1], verdict.value)
        && Lists(cases, n - 1, deliveries, judgments[..|judgments| - 1])
  }

  function Filled(slots: seq<Option<Judgment>>): nat {
    if slots == [] then 0
    else Filled(slots[..|slots| - 1]) + if slots[|slots| - 1].Some? then 1 else 0
  }

  lemma CompletedLast(slots: seq<Option<Judgment>>)
    requires slots != []
    ensures var n := |slots| - 1;
            var init := Completed(slots[..n]);
            if slots[n].None? then Completed(slots) == init
            else |Completed(slots)| == |init| + 1 && Completed(slots)[..|init|] == init && Completed(slots)[|init|] == slots[n].value
  {
    Nothing(Completed(slots[..|slots| - 1]));
  }

  lemma {:induction false} CompletedLists(cases: seq<Case>, slots: seq<Option<Judgment>>, deliveries: seq<Delivery>, n: nat)
    requires FilledBy(cases, slots, deliveries) && n <= |cases|
    ensures Lists(cases, n, deliveries, Completed(slots[..n]))
  {
    if n > 0 {
      CompletedLists(cases, slots, deliveries, n - 1);
      CompletedLast(slots[..n]);
      assert slots[..n][..n - 1] == slots[..n - 1];
      assert SlotSays(slots[n - 1], cases[n - 1], VerdictOn(deliveries, n - 1));
    }
  }

  lemma {:induction false} CompletedCounts(slots: seq<Option<Judgment>>)
    ensures |Completed(slots)| == Filled(slots) <= |slots|
    ensures Filled(slots) == |slots| <==> forall i :: 0 <= i < |slots| ==> slots[i].Some?
  {
    if slots != [] {
      var n := |slots| - 1;
      CompletedLast(slots);
      CompletedCounts(slots[..n]);
      assert forall i :: 0 <= i < n ==> slots[..n][i] == slots[i];
    }
  }

  /** If every case has its verdict, the list repeats them one by one. */
  lemma {:induction false} ListsAll(cases: seq<Case>, n: nat, deliveries: seq<Delivery>, judgments: seq<Judgment>)
    requires n <= |cases| && Lists(cases, n, deliveries, judgments)
    requires forall i: nat :: i < n ==> VerdictOn(deliveries, i).Some?
    ensures |judgments| == n
    ensures forall i: nat :: i < n ==> Says(judgments[i], cases[i], VerdictOn(deliveries, i).value)
  {
    if n > 0 {
      ListsAll(cases, n - 1, deliveries, judgments[..|judgments| - 1]);
      assert forall i :: 0 <= i < n - 1 ==> judgments[..|judgments| - 1][i] == judgments[i];
    }
  }

  /** A checkpoint lists exactly the verdicts that have come, in case order, and has a summary if and only if
      it lists them all, which then is the summary of all cases. */
  ghost predicate Truthful(cases: seq<Case>, deliveries: seq<Delivery>, c: Checkpoint) {
    && Lists(cases, |cases|, deliveries, c.judgments) && |c.judgments| == |deliveries|
    && (c.summary.Some? <==> |c.judgments| == |cases|)
    && (c.summary.Some? ==> Answers(cases, c.judgments) && c.summary.value == SummaryOf(cases, c.judgments))
  }

  lemma CheckpointTruthful(cases: seq<Case>, slots: seq<Option<Judgment>>, deliveries: seq<Delivery>)
    requires FilledBy(cases, slots, deliveries) && Filled(slots) == |deliveries|
    ensures Truthful(cases, deliveries, CheckpointOf(cases, slots))
  {
    CompletedLists(cases, slots, deliveries, |cases|);
    All(slots);
    CompletedCounts(slots);
    if Filled(slots) == |slots| {
      CompletedAnswers(cases, slots, deliveries);
    }
  }

  lemma CompletedAnswers(cases: seq<Case>, slots: seq<Option<Judgment>>, deliveries: seq<Delivery>)
    requires FilledBy(cases, slots, deliveries) && forall i :: 0 <= i < |slots| ==> slots[i].Some?
    ensures Answers(cases, Completed(slots))
  {
    CompletedLists(cases, slots, deliveries, |cases|);
    All(slots);
    AllVerdicts(cases, slots, deliveries);
    ListsAll(cases, |cases|, deliveries, Completed(slots));
    forall i: nat | i < |cases|
      ensures Completed(slots)[i].questionId == cases[i].questionId && Completed(slots)[i].questionType == cases[i].questionType
    {
      assert Says(Completed(slots)[i], cases[i], VerdictOn(deliveries, i).value);
    }
  }

  lemma AllVerdicts(cases: seq<Case>, slots: seq<Option<Judgment>>, deliveries: seq<Delivery>)
    requires FilledBy(cases, slots, deliveries) && forall i :: 0 <= i < |slots| ==> slots[i].Some?
    ensures forall i: nat :: i < |cases| ==> VerdictOn(deliveries, i).Some?
  {
    forall i: nat | i < |cases|
      ensures VerdictOn(deliveries, i).Some?
    {
      assert SlotSays(slots[i], cases[i], VerdictOn(deliveries, i));
    }
  }

  lemma {:induction false} FilledUpdate(slots: seq<Option<Judgment>>, i: nat, judgment: Judgment)
    requires i < |slots| && slots[i].None?
    ensures Filled(slots[i := Some(judgment)]) == Filled(slots) + 1
  {
    var n := |slots| - 1;
    var updated := slots[i := Some(judgment)];
    if i < n {
      FilledUpdate(slots[..n], i, judgment);
      assert updated[..n] == slots[..n][i := Some(judgment)];
    } else {
      assert updated[..n] == slots[..n];
    }
  }

  lemma {:induction false} NothingFilled(n: nat)
    ensures Filled(NoJudgments(n)) == 0
  {
    if n > 0 {
      NothingFilled(n - 1);
      assert NoJudgments(n)[..n - 1] == NoJudgments(n - 1);
    }
  }

  lemma {:induction false} SpawnedEmpty(cases: seq<Case>, count: nat)
    ensures Spawned(cases, count).checkpoints == [] && Spawned(cases, count).slots == NoJudgments(|cases|)
  {
    if count > 0 {
      SpawnedEmpty(cases, count - 1);
    }
  }

  /** The slots and the checkpoints of a run are those of its verdicts: one checkpoint for each, of the verdicts
      up to then. */
  ghost predicate Delivered(cases: seq<Case>, p: Pool, deliveries: seq<Delivery>) {
    && FilledBy(cases, p.slots, deliveries) && Filled(p.slots) == |deliveries|
    && AllTruthful(cases, p.checkpoints, deliveries)
  }

  ghost predicate AllTruthful(cases: seq<Case>, checkpoints: seq<Checkpoint>, deliveries: seq<Delivery>) {
    && |checkpoints| == |deliveries|
    && forall k :: 0 <= k < |checkpoints| ==> Truthful(cases, deliveries[..k + 1], checkpoints[k])
  }

  lemma TruthfulSnoc(cases: seq<Case>, checkpoints: seq<Checkpoint>, deliveries: seq<Delivery>, c: Checkpoint, last: Delivery)
    requires AllTruthful(cases, checkpoints, deliveries) && Truthful(cases, deliveries + [last], c)
    ensures AllTruthful(cases, checkpoints + [c], deliveries + [last])
  {
    var all := deliveries + [last];
    forall k | 0 <= k < |checkpoints + [c]|
      ensures Truthful(cases, all[..k + 1], (checkpoints + [c])[k])
    {
      if k < |deliveries| {
        assert all[..k + 1] == deliveries[..k + 1];
      } else {
        All(all);
      }
    }
  }

  lemma ResumeDelivers(cases: seq<Case>, p: Pool, deliveries: seq<Delivery>, event: Event)
    requires Invariant(cases, p) && Delivered(cases, p, deliveries)
    ensures Delivered(cases, Resume(cases, p, event), deliveries + DeliveredBy(p, event))
  {
    if DeliveredBy(p, event) == [] {
      Nothing(deliveries);
    } else {
      StoreDelivers(cases, p, deliveries, event.worker, event.verdict.value);
    }
  }

  lemma StoreDelivers(cases: seq<Case>, p: Pool, deliveries: seq<Delivery>, w: nat, verdict: Verdict)
    requires Invariant(cases, p) && Delivered(cases, p, deliveries)
    requires w < |p.workers| && p.workers[w].Judging?
    ensures p.workers[w].index < |p.slots| == |cases|
    ensures Delivered(cases, Store(cases, p, p.workers[w].index, verdict), deliveries + [Delivery(p.workers[w].index, verdict)])
  {
    var last := Delivery(p.workers[w].index, verdict);
    var slots := p.slots[last.index := Some(Judged(cases[last.index], verdict))];
    StoreFills(cases, p.slots, deliveries, last);
    FilledUpdate(p.slots, last.index, Judged(cases[last.index], verdict));
    CheckpointTruthful(cases, slots, deliveries + [last]);
    TruthfulSnoc(cases, p.checkpoints, deliveries, CheckpointOf(cases, slots), last);
  }

  /** In every run each slot holds what its own judge said of its case, and the `k`-th checkpoint lists exactly
      the first `k + 1` verdicts, in case order, with a summary if and only if these are all. */
  lemma {:induction false} RunDelivers(cases: seq<Case>, concurrency: nat, events: seq<Event>)
    ensures Delivered(cases, Run(cases, concurrency, events), Deliveries(cases, concurrency, events))
  {
    if events == [] {
      SpawnedEmpty(cases, if concurrency <= |cases| then concurrency else |cases|);
      NothingFilled(|cases|);
    } else {
      var init := events[..|events| - 1];
      RunDelivers(cases, concurrency, init);
      RunKeeps(cases, concurrency, init);
      ResumeDelivers(cases, Run(cases, concurrency, init), Deliveries(cases, concurrency, init), events[|events| - 1]);
    }
  }

  // ---------------------------------------------------------------------------------------
  // The end
  // ---------------------------------------------------------------------------------------

  /** All workers are done, and no judge has thrown: the pool returns. */
  ghost predicate Succeeded(p: Pool) {
    forall w :: 0 <= w < |p.workers| ==> p.workers[w].Finished?
  }

  lemma AllFilled(cases: seq<Case>, p: Pool)
    requires Invariant(cases, p) && Succeeded(p) && p.workers != []
    ensures |p.calls| == |cases| && forall i :: 0 <= i < |cases| ==> p.slots[i].Some?
  {
    assert p.workers[0].Finished?;
    forall i: nat | i < |cases|
      ensures p.slots[i].Some?
    {
      assert forall w :: 0 <= w < |p.workers| ==> !Holds(p.workers[w], i);
      assert !HeldBy(p, i);
    }
  }

  /** Under every interleaving and for any concurrency, when the pool returns each case has been handed out and
      judged exactly once, its slot repeats the verdict on it, and the final checkpoint lists and summarizes
      all of them. */
  lemma PoolComplete(cases: seq<Case>, concurrency: nat, events: seq<Event>)
    requires concurrency >= 1 && cases != []
    requires Succeeded(Run(cases, concurrency, events))
    ensures var p, deliveries := Run(cases, concurrency, events), Deliveries(cases, concurrency, events);
            && |p.calls| == |cases| && (forall i :: 0 <= i < |cases| ==> p.calls[i] == i)
            && |deliveries| == |cases| && (forall d, e :: 0 <= d < e < |deliveries| ==> deliveries[d].index != deliveries[e].index)
            && |p.slots| == |cases|
            && (forall i: nat :: i < |cases| ==>
                  p.slots[i].Some? && VerdictOn(deliveries, i).Some? && Says(p.slots[i].value, cases[i], VerdictOn(deliveries, i).value))
            && Truthful(cases, deliveries, CheckpointOf(cases, p.slots))
            && CheckpointOf(cases, p.slots).summary == Some(SummaryOf(cases, Completed(p.slots)))
  {
    var p, deliveries := Run(cases, concurrency, events), Deliveries(cases, concurrency, events);
    RunKeeps(cases, concurrency, events);
    RunDelivers(cases, concurrency, events);
    AllFilled(cases, p);
    CompletedCounts(p.slots);
    CheckpointTruthful(cases, p.slots, deliveries);
    forall i: nat | i < |cases|
      ensures p.slots[i].Some? && VerdictOn(deliveries, i).Some? && Says(p.slots[i].value, cases[i], VerdictOn(deliveries, i).value)
    {
      assert SlotSays(p.slots[i], cases[i], VerdictOn(deliveries, i));
    }
  }

  /** The pool returns if and only if every case has its verdict: as soon as the last one has come, and never if
      a judge throws. */
  lemma PoolReturnsIff(cases: seq<Case>, concurrency: nat, events: seq<Event>)
    requires concurrency >= 1 && cases != []
    ensures Succeeded(Run(cases, concurrency, events)) <==> |Deliveries(cases, concurrency, events)| == |cases|
  {
    RunKeeps(cases, concurrency, events);
    RunDelivers(cases, concurrency, events);
    DoneIff(cases, Run(cases, concurrency, events), Deliveries(cases, concurrency, events));
  }

  lemma DoneIff(cases: seq<Case>, p: Pool, deliveries: seq<Delivery>)
    requires Invariant(cases, p) && p.workers != []
    requires |p.slots| == |cases| && Filled(p.slots) == |deliveries|
    ensures Succeeded(p) <==> |deliveries| == |cases|
  {
    CompletedCounts(p.slots);
    if Succeeded(p) {
      AllFilled(cases, p);
    }
    if forall i :: 0 <= i < |p.slots| ==> p.slots[i].Some? {
      NobodyHolds(cases, p);
    }
  }

  lemma NobodyHolds(cases: seq<Case>, p: Pool)
    requires Invariant(cases, p) && forall i :: 0 <= i < |p.slots| ==> p.slots[i].Some?
    ensures Succeeded(p)
  {
  }

  /** As long as some worker awaits its judge, no case has been judged twice and no two judges are at work
      on the same case. */
  lemma JudgedAtMostOnce(cases: seq<Case>, concurrency: nat, events: seq<Event>, v: nat, w: nat)
    requires var p := Run(cases, concurrency, events);
             v < w < |p.workers| && p.workers[v].Judging? && p.workers[w].Judging?
    ensures var p := Run(cases, concurrency, events);
            && p.workers[v].index != p.workers[w].index
            && p.workers[v].index < |p.slots| && p.workers[w].index < |p.slots|
            && p.slots[p.workers[v].index].None? && p.slots[p.workers[w].index].None?
            && (forall i, j :: 0 <= i < j < |p.calls| ==> p.calls[i] != p.calls[j])
  {
    RunKeeps(cases, concurrency, events);
  }

  /** A worker has ended only if no case is left to take. */
  ghost predicate NoneIdle(p: Pool) {
    forall w :: 0 <= w < |p.workers| && p.workers[w].Finished? ==> p.cursor >= |p.slots|
  }

  lemma TakeKeepsBusy(p: Pool, w: nat)
    requires w < |p.workers|
    requires forall v :: 0 <= v < |p.workers| && v != w && p.workers[v].Finished? ==> p.cursor >= |p.slots|
    ensures NoneIdle(Take(p, w)) && |Take(p, w).workers| == |p.workers| && |Take(p, w).slots| == |p.slots|
  {
  }

  lemma {:induction false} SpawnedBusy(cases: seq<Case>, count: nat)
    ensures NoneIdle(Spawned(cases, count)) && |Spawned(cases, count).workers| == count
  {
    if count > 0 {
      SpawnedBusy(cases, count - 1);
      var p := Spawned(cases, count - 1);
      TakeKeepsBusy(p.(workers := p.workers + [Finished]), |p.workers|);
    }
  }

  /** As many workers as are asked for, but no more than there are cases, and none of them ends while a case is left
      to take, whatever the order in which judges are done. */
  lemma {:induction false} PoolBusy(cases: seq<Case>, concurrency: nat, events: seq<Event>)
    ensures var p := Run(cases, concurrency, events);
            && |p.workers| == (if concurrency <= |cases| then concurrency else |cases|)
            && |p.slots| == |cases| && NoneIdle(p)
  {
    RunKeeps(cases, concurrency, events);
    if events == [] {
      SpawnedBusy(cases, if concurrency <= |cases| then concurrency else |cases|);
    } else {
      var p, event := Run(cases, concurrency, events[..|events| - 1]), events[|events| - 1];
      PoolBusy(cases, concurrency, events[..|events| - 1]);
      if event.worker < |p.workers| && p.workers[event.worker].Judging? && event.verdict.Some?
         && p.workers[event.worker].index < |p.slots| == |cases| {
        TakeKeepsBusy(Store(cases, p, p.workers[event.worker].index, event.verdict.value), event.worker);
      }
    }
  }
}

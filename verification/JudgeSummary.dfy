/** The summary of `eval/agent-memory/score-longmemeval.js`: judgments counted overall and by question type. */
module JudgeSummary {
  import opened Wrappers
  import opened Sequences
  import opened Numbers
  import opened CanonicalJson

  datatype Case = Case(questionId: string, questionType: string)

  datatype Usage = Usage(input: int, output: int, cacheRead: int, cacheWrite: int, cost: real)

  datatype Judgment = Judgment(questionId: string, questionType: string, answer: bool, usage: Usage)

  datatype Tally = Tally(correct: nat, total: nat)

  /** `accuracy` is only ever computed where something was counted. */
  datatype TypeEntry = TypeEntry(kind: string, tally: Tally, accuracy: real)

  datatype Summary = Summary(
    overall: Tally,
    overallAccuracy: real,
    taskAveragedAccuracy: real,
    abstention: Tally,
    abstentionAccuracy: Option<real>,
    byType: seq<TypeEntry>,
    judgeUsage: Usage)

  // ---------------------------------------------------------------------------------------
  // Types in order
  // ---------------------------------------------------------------------------------------

  function InsertType(kind: string, types: seq<string>): seq<string> {
    if types == [] then [kind]
    else if kind == types[0] then types
    else if KeyBefore(kind, types[0]) then [kind] + types
    else [types[0]] + InsertType(kind, types[1..])
  }

  /** `[...new Set(cases.map(({ questionType }) => questionType))].sort()` */
  function TypesOf(cases: seq<Case>): seq<string> {
    if cases == [] then [] else InsertType(cases[0].questionType, TypesOf(cases[1..]))
  }

  // ---------------------------------------------------------------------------------------
  // Counting
  // ---------------------------------------------------------------------------------------

  function Count(judgments: seq<Judgment>, selected: Judgment -> bool): nat {
    if judgments == [] then 0
    else Count(judgments[..|judgments| - 1], selected) + if selected(judgments[|judgments| - 1]) then 1 else 0
  }

  function Correct(): Judgment -> bool {
    (j: Judgment) => j.answer
  }

  function Both(a: Judgment -> bool, b: Judgment -> bool): Judgment -> bool {
    (j: Judgment) => a(j) && b(j)
  }

  function TallyOf(judgments: seq<Judgment>, selected: Judgment -> bool): Tally {
    Tally(Count(judgments, Both(selected, Correct())), Count(judgments, selected))
  }

  function OfType(kind: string): Judgment -> bool {
    (j: Judgment) => j.questionType == kind
  }

  function Anything(): Judgment -> bool {
    (j: Judgment) => true
  }

  function Contains(text: string, part: string): bool {
    part <= text || (text != [] && Contains(text[1..], part))
  }

  function Abstains(): Judgment -> bool {
    (j: Judgment) => Contains(j.questionId, "_abs")
  }

  function Ratio(tally: Tally): real {
    if tally.total == 0 then 0.0 else tally.correct as real / tally.total as real
  }

  function Add(a: Usage, b: Usage): Usage {
    Usage(a.input + b.input, a.output + b.output, a.cacheRead + b.cacheRead, a.cacheWrite + b.cacheWrite, a.cost + b.cost)
  }

  function UsageOf(judgments: seq<Judgment>): Usage {
    if judgments == [] then Usage(0, 0, 0, 0, 0.0)
    else Add(UsageOf(judgments[..|judgments| - 1]), judgments[|judgments| - 1].usage)
  }

  function Entry(judgments: seq<Judgment>, kind: string): TypeEntry {
    var tally := TallyOf(judgments, OfType(kind));
    TypeEntry(kind, tally, Ratio(tally))
  }

  function Entries(judgments: seq<Judgment>, types: seq<string>): (entries: seq<TypeEntry>)
    ensures |entries| == |types|
    ensures forall i :: 0 <= i < |types| ==> entries[i] == Entry(judgments, types[i])
  {
    if types == [] then []
    else Entries(judgments, types[..|types| - 1]) + [Entry(judgments, types[|types| - 1])]
  }

  function SumAccuracy(entries: seq<TypeEntry>): real {
    if entries == [] then 0.0 else SumAccuracy(entries[..|entries| - 1]) + entries[|entries| - 1].accuracy
  }

  function SummaryOf(cases: seq<Case>, judgments: seq<Judgment>): Summary {
    var byType := Entries(judgments, TypesOf(cases));
    var overall, abstention := TallyOf(judgments, Anything()), TallyOf(judgments, Abstains());
    Summary(overall, Ratio(overall), if byType == [] then 0.0 else SumAccuracy(byType) / |byType| as real,
            abstention, if abstention.total > 0 then Some(Ratio(abstention)) else None, byType, UsageOf(judgments))
  }

  method Tallied(judgments: seq<Judgment>, selected: Judgment -> bool) returns (tally: Tally)
    ensures tally == TallyOf(judgments, selected)
  {
    var correct, total := 0, 0;
    ghost var right := Both(selected, Correct());
    for i := 0 to |judgments|
      invariant correct == Count(judgments[..i], right) && total == Count(judgments[..i], selected)
    {
      assert judgments[..i + 1][..i] == judgments[..i];
      if selected(judgments[i]) {
        total := total + 1;
        if judgments[i].answer {
          correct := correct + 1;
        }
      }
    }
    All(judgments);
    tally := Tally(correct, total);
  }

  method TypeEntries(judgments: seq<Judgment>, types: seq<string>) returns (byType: seq<TypeEntry>, accuracies: real)
    ensures byType == Entries(judgments, types) && accuracies == SumAccuracy(byType)
  {
    byType, accuracies := [], 0.0;
    for i := 0 to |types|
      invariant byType == Entries(judgments, types[..i]) && accuracies == SumAccuracy(byType)
    {
      var tally := Tallied(judgments, OfType(types[i]));
      var entry := TypeEntry(types[i], tally, Ratio(tally));
      EntriesSnoc(judgments, types, i);
      SumAccuracySnoc(byType, entry);
      byType := byType + [entry];
      accuracies := accuracies + entry.accuracy;
    }
    All(types);
  }

  lemma EntriesSnoc(judgments: seq<Judgment>, types: seq<string>, i: nat)
    requires i < |types|
    ensures Entries(judgments, types[..i + 1]) == Entries(judgments, types[..i]) + [Entry(judgments, types[i])]
  {
    assert types[..i + 1][..i] == types[..i];
  }

  lemma SumAccuracySnoc(entries: seq<TypeEntry>, entry: TypeEntry)
    ensures SumAccuracy(entries + [entry]) == SumAccuracy(entries) + entry.accuracy
  {
    assert (entries + [entry])[..|entries|] == entries;
  }

  method TotalUsage(judgments: seq<Judgment>) returns (usage: Usage)
    ensures usage == UsageOf(judgments)
  {
    usage := Usage(0, 0, 0, 0, 0.0);
    for i := 0 to |judgments|
      invariant usage == UsageOf(judgments[..i])
    {
      assert judgments[..i + 1][..i] == judgments[..i];
      usage := Add(usage, judgments[i].usage);
    }
    All(judgments);
  }

  method Summarize(cases: seq<Case>, judgments: seq<Judgment>) returns (summary: Summary)
    ensures summary == SummaryOf(cases, judgments)
  {
    var byType, accuracies := TypeEntries(judgments, TypesOf(cases));
    var overall := Tallied(judgments, Anything());
    var abstention := Tallied(judgments, Abstains());
    var usage := TotalUsage(judgments);
    summary := Summary(overall, Ratio(overall), if byType == [] then 0.0 else accuracies / |byType| as real,
                       abstention, if abstention.total > 0 then Some(Ratio(abstention)) else None, byType, usage);
  }

  // ---------------------------------------------------------------------------------------
  // The parts make up the whole
  // ---------------------------------------------------------------------------------------

  ghost predicate Distinct(types: seq<string>) {
    forall i, j :: 0 <= i < j < |types| ==> types[i] != types[j]
  }

  ghost predicate SortedTypes(types: seq<string>) {
    forall i, j :: 0 <= i < j < |types| ==> KeyBefore(types[i], types[j])
  }

  lemma {:induction false} InsertTypeSorted(kind: string, types: seq<string>)
    requires SortedTypes(types)
    ensures SortedTypes(InsertType(kind, types))
    ensures forall t :: t in InsertType(kind, types) <==> t == kind || t in types
  {
    KeyOrderTotal();
    if types != [] && kind != types[0] && !KeyBefore(kind, types[0]) {
      InsertTypeSorted(kind, types[1..]);
      var rest := InsertType(kind, types[1..]);
      assert types == [types[0]] + types[1..];
      forall i | 0 <= i < |rest|
        ensures KeyBefore(types[0], rest[i])
      {
        assert rest[i] in rest;
      }
    } else if types != [] && kind != types[0] {
      forall i | 0 <= i < |types|
        ensures KeyBefore(kind, types[i])
      {
        assert i == 0 || KeyBefore(types[0], types[i]);
      }
    }
  }

  ghost predicate HasType(cases: seq<Case>, kind: string) {
    exists i :: 0 <= i < |cases| && cases[i].questionType == kind
  }

  lemma HasTypeFirst(cases: seq<Case>, kind: string)
    requires cases != []
    ensures HasType(cases, kind) <==> kind == cases[0].questionType || HasType(cases[1..], kind)
  {
    if HasType(cases, kind) {
      var i :| 0 <= i < |cases| && cases[i].questionType == kind;
      assert i > 0 ==> cases[1..][i - 1].questionType == kind;
    }
    if HasType(cases[1..], kind) {
      var i :| 0 <= i < |cases[1..]| && cases[1..][i].questionType == kind;
      assert cases[i + 1].questionType == kind;
    }
  }

  lemma SortedDistinct(types: seq<string>)
    requires SortedTypes(types)
    ensures Distinct(types)
  {
    KeyOrderTotal();
  }

  /** The types are those of the cases, each once, in ascending order. */
  lemma {:induction false} TypesListed(cases: seq<Case>)
    ensures SortedTypes(TypesOf(cases)) && Distinct(TypesOf(cases))
    ensures forall t :: t in TypesOf(cases) <==> HasType(cases, t)
  {
    if cases != [] {
      TypesListed(cases[1..]);
      InsertTypeSorted(cases[0].questionType, TypesOf(cases[1..]));
      forall t
        ensures t in TypesOf(cases) <==> HasType(cases, t)
      {
        HasTypeFirst(cases, t);
      }
    }
    SortedDistinct(TypesOf(cases));
  }

  /** The counts of the types added up, for any further selection of judgments. */
  ghost function SumCounts(judgments: seq<Judgment>, types: seq<string>, selected: Judgment -> bool): nat {
    if types == [] then 0
    else SumCounts(judgments, types[1..], selected)
         + Count(judgments, Both(OfType(types[0]), selected))
  }

  lemma {:induction false} SumCountsEmpty(types: seq<string>, selected: Judgment -> bool)
    ensures SumCounts([], types, selected) == 0
  {
    if types != [] {
      SumCountsEmpty(types[1..], selected);
    }
  }

  /** One more judgment adds to one type only. */
  lemma {:induction false} SumCountsSnoc(judgments: seq<Judgment>, last: Judgment, types: seq<string>, selected: Judgment -> bool)
    requires Distinct(types)
    ensures SumCounts(judgments + [last], types, selected)
         == SumCounts(judgments, types, selected) + if last.questionType in types && selected(last) then 1 else 0
  {
    if types != [] {
      assert Distinct(types[1..]);
      SumCountsSnoc(judgments, last, types[1..], selected);
      assert (judgments + [last])[..|judgments|] == judgments;
      assert types == [types[0]] + types[1..];
      assert types[0] !in types[1..];
    }
  }

  lemma {:induction false} SumCountsWhole(judgments: seq<Judgment>, types: seq<string>, selected: Judgment -> bool)
    requires Distinct(types)
    requires forall i :: 0 <= i < |judgments| ==> judgments[i].questionType in types
    ensures SumCounts(judgments, types, selected) == Count(judgments, selected)
  {
    if judgments == [] {
      SumCountsEmpty(types, selected);
    } else {
      var init, last := judgments[..|judgments| - 1], judgments[|judgments| - 1];
      SumCountsWhole(init, types, selected);
      SumCountsSnoc(init, last, types, selected);
      assert judgments == init + [last];
    }
  }

  ghost function SumTallies(entries: seq<TypeEntry>): Tally {
    if entries == [] then Tally(0, 0)
    else
      var rest := SumTallies(entries[1..]);
      Tally(rest.correct + entries[0].tally.correct, rest.total + entries[0].tally.total)
  }

  lemma {:induction false} CountAgrees(judgments: seq<Judgment>, a: Judgment -> bool, b: Judgment -> bool)
    requires forall j :: a(j) == b(j)
    ensures Count(judgments, a) == Count(judgments, b)
  {
    if judgments != [] {
      CountAgrees(judgments[..|judgments| - 1], a, b);
    }
  }

  lemma {:induction false} EntriesTail(judgments: seq<Judgment>, types: seq<string>)
    requires types != []
    ensures Entries(judgments, types)[1..] == Entries(judgments, types[1..])
    ensures Entries(judgments, types)[0] == Entry(judgments, types[0])
  {
  }

  lemma {:induction false} TalliesAreCounts(judgments: seq<Judgment>, types: seq<string>)
    ensures SumTallies(Entries(judgments, types))
         == Tally(SumCounts(judgments, types, Correct()), SumCounts(judgments, types, Anything()))
  {
    if types != [] {
      EntriesTail(judgments, types);
      TalliesAreCounts(judgments, types[1..]);
      CountAgrees(judgments, OfType(types[0]), Both(OfType(types[0]), Anything()));
    }
  }

  /** The judgments answer the cases, each its own. */
  ghost predicate Answers(cases: seq<Case>, judgments: seq<Judgment>) {
    && |judgments| == |cases|
    && forall i :: 0 <= i < |cases| ==>
         judgments[i].questionId == cases[i].questionId && judgments[i].questionType == cases[i].questionType
  }

  lemma {:induction false} CountAll(judgments: seq<Judgment>)
    ensures Count(judgments, Anything()) == |judgments|
  {
    if judgments != [] {
      CountAll(judgments[..|judgments| - 1]);
    }
  }

  /** The tallies of the types add up to the overall one, which counts every case. */
  lemma TypesAddUp(cases: seq<Case>, judgments: seq<Judgment>)
    requires Answers(cases, judgments)
    ensures var summary := SummaryOf(cases, judgments);
            && SumTallies(summary.byType) == summary.overall
            && summary.overall.total == |cases|
  {
    var types := TypesOf(cases);
    TypesListed(cases);
    TalliesAreCounts(judgments, types);
    SumCountsWhole(judgments, types, Correct());
    SumCountsWhole(judgments, types, Anything());
    CountAgrees(judgments, Both(Anything(), Correct()), Correct());
    CountAll(judgments);
  }

  lemma {:induction false} CountPositive(judgments: seq<Judgment>, selected: Judgment -> bool, i: nat)
    requires i < |judgments| && selected(judgments[i])
    ensures Count(judgments, selected) >= 1
  {
    if i < |judgments| - 1 {
      CountPositive(judgments[..|judgments| - 1], selected, i);
    }
  }

  lemma {:induction false} CountWithin(judgments: seq<Judgment>, selected: Judgment -> bool)
    ensures TallyOf(judgments, selected).correct <= TallyOf(judgments, selected).total
  {
    if judgments != [] {
      CountWithin(judgments[..|judgments| - 1], selected);
    }
  }

  lemma RatioWithin(tally: Tally)
    requires tally.correct <= tally.total
    ensures 0.0 <= Ratio(tally) <= 1.0
  {
    if tally.total > 0 {
      assert Ratio(tally) * tally.total as real == tally.correct as real;
    }
  }

  lemma EntryWithin(judgments: seq<Judgment>, kind: string)
    ensures 0.0 <= Entry(judgments, kind).accuracy <= 1.0
  {
    CountWithin(judgments, OfType(kind));
    RatioWithin(TallyOf(judgments, OfType(kind)));
  }

  lemma {:induction false} SumAccuracyWithin(judgments: seq<Judgment>, types: seq<string>)
    ensures 0.0 <= SumAccuracy(Entries(judgments, types)) <= |types| as real
  {
    if types != [] {
      var init := types[..|types| - 1];
      SumAccuracyWithin(judgments, init);
      EntryWithin(judgments, types[|types| - 1]);
      assert Entries(judgments, types)[..|init|] == Entries(judgments, init);
    }
  }

  lemma MeanWithin(sum: real, n: real)
    requires n > 0.0 && 0.0 <= sum <= n
    ensures 0.0 <= sum / n <= 1.0
  {
    assert sum / n * n == sum;
  }

  lemma SomeType(cases: seq<Case>)
    requires cases != []
    ensures TypesOf(cases) != []
  {
    TypesListed(cases);
    assert HasType(cases, cases[0].questionType);
  }

  /** Every accuracy of the summary lies between 0 and 1. */
  ghost predicate AccuraciesWithin(summary: Summary) {
    && 0.0 <= summary.overallAccuracy <= 1.0
    && 0.0 <= summary.taskAveragedAccuracy <= 1.0
    && (summary.abstentionAccuracy.Some? ==> 0.0 <= summary.abstentionAccuracy.value <= 1.0)
    && forall t :: 0 <= t < |summary.byType| ==> 0.0 <= summary.byType[t].accuracy <= 1.0
  }

  /** All accuracies lie between 0 and 1, the one of abstentions is given if and only if there are any, and no
      other divides by zero: there is a judgment, a type, and a judgment for every type. */
  lemma AccuraciesDefined(cases: seq<Case>, judgments: seq<Judgment>)
    requires Answers(cases, judgments) && cases != []
    ensures var summary := SummaryOf(cases, judgments);
            && AccuraciesWithin(summary)
            && (summary.abstentionAccuracy.Some? <==> summary.abstention.total > 0)
            && summary.overall.total >= 1 && |summary.byType| >= 1
            && forall t :: 0 <= t < |summary.byType| ==>
                 summary.byType[t].kind == TypesOf(cases)[t] && summary.byType[t].tally.total >= 1
  {
    var types := TypesOf(cases);
    SomeType(cases);
    SumAccuracyWithin(judgments, types);
    MeanWithin(SumAccuracy(Entries(judgments, types)), |types| as real);
    forall t | 0 <= t < |types|
      ensures Entry(judgments, types[t]).tally.total >= 1 && 0.0 <= Entry(judgments, types[t]).accuracy <= 1.0
    {
      EntryWithin(judgments, types[t]);
      TypeHasJudgment(cases, judgments, types[t]);
    }
    CountAll(judgments);
    CountWithin(judgments, Anything());
    CountWithin(judgments, Abstains());
    RatioWithin(TallyOf(judgments, Anything()));
    RatioWithin(TallyOf(judgments, Abstains()));
  }

  lemma TypeHasJudgment(cases: seq<Case>, judgments: seq<Judgment>, kind: string)
    requires Answers(cases, judgments) && kind in TypesOf(cases)
    ensures TallyOf(judgments, OfType(kind)).total >= 1
  {
    TypesListed(cases);
    assert HasType(cases, kind);
    var i :| 0 <= i < |cases| && cases[i].questionType == kind;
    CountPositive(judgments, OfType(kind), i);
  }

  // ---------------------------------------------------------------------------------------
  // What the summary says
  // ---------------------------------------------------------------------------------------

  /** The judgments of a kind, by their positions. */
  ghost function Positions(judgments: seq<Judgment>, selected: Judgment -> bool): set<nat> {
    set i: nat | i < |judgments| && selected(judgments[i])
  }

  lemma {:induction false} CountIsPositions(judgments: seq<Judgment>, selected: Judgment -> bool)
    ensures Count(judgments, selected) == |Positions(judgments, selected)|
  {
    if judgments != [] {
      var last := |judgments| - 1;
      CountIsPositions(judgments[..last], selected);
      assert Positions(judgments, selected)
          == Positions(judgments[..last], selected) + if selected(judgments[last]) then {last} else {};
    }
  }

  /** As many judgments as there are, and as many of them correct. */
  ghost predicate Counts(judgments: seq<Judgment>, selected: Judgment -> bool, tally: Tally) {
    && tally.total == |Positions(judgments, selected)|
    && tally.correct == |Positions(judgments, Both(selected, (j: Judgment) => j.answer))|
  }

  lemma TallyCounts(judgments: seq<Judgment>, selected: Judgment -> bool)
    ensures Counts(judgments, selected, TallyOf(judgments, selected))
  {
    CountIsPositions(judgments, selected);
    CountIsPositions(judgments, Both(selected, Correct()));
    assert Positions(judgments, Both(selected, Correct()))
        == Positions(judgments, Both(selected, (j: Judgment) => j.answer));
  }

  lemma {:induction false} ContainsIff(text: string, part: string)
    ensures Contains(text, part) <==> exists k :: 0 <= k <= |text| && part <= text[k..]
  {
    if part <= text {
      assert text[0..] == text;
    } else if text != [] {
      ContainsIff(text[1..], part);
      if Contains(text[1..], part) {
        var k :| 0 <= k <= |text[1..]| && part <= text[1..][k..];
        assert text[k + 1..] == text[1..][k..];
      }
      if k :| 0 <= k <= |text| && part <= text[k..] {
        assert k > 0 ==> text[1..][k - 1..] == text[k..];
      }
    }
  }

  lemma RatioIs(tally: Tally)
    ensures Ratio(tally) * tally.total as real == if tally.total == 0 then 0.0 else tally.correct as real
  {
  }

  lemma {:induction false} SumAccuracyConcat(a: seq<TypeEntry>, b: seq<TypeEntry>)
    ensures SumAccuracy(a + b) == SumAccuracy(a) + SumAccuracy(b)
  {
    if b == [] {
      Nothing(a);
    } else {
      assert (a + b)[..|a + b| - 1] == a + b[..|b| - 1];
      SumAccuracyConcat(a, b[..|b| - 1]);
    }
  }

  /** A field of the usage, added up. */
  ghost function Total<T>(judgments: seq<Judgment>, field: Usage -> T, add: (T, T) -> T, zero: T): T {
    if judgments == [] then zero else add(field(judgments[0].usage), Total(judgments[1..], field, add, zero))
  }

  lemma {:induction false} UsageFirst(judgments: seq<Judgment>)
    requires judgments != []
    ensures UsageOf(judgments) == Add(judgments[0].usage, UsageOf(judgments[1..]))
  {
    if |judgments| > 1 {
      UsageFirst(judgments[..|judgments| - 1]);
      assert judgments[1..][..|judgments| - 2] == judgments[..|judgments| - 1][1..];
    }
  }

  lemma {:induction false} UsageTotals(judgments: seq<Judgment>)
    ensures var usage, plus := UsageOf(judgments), (a: int, b: int) => a + b;
            && usage.input == Total(judgments, (u: Usage) => u.input, plus, 0)
            && usage.output == Total(judgments, (u: Usage) => u.output, plus, 0)
            && usage.cacheRead == Total(judgments, (u: Usage) => u.cacheRead, plus, 0)
            && usage.cacheWrite == Total(judgments, (u: Usage) => u.cacheWrite, plus, 0)
            && usage.cost == Total(judgments, (u: Usage) => u.cost, (a: real, b: real) => a + b, 0.0)
  {
    if judgments != [] {
      UsageFirst(judgments);
      UsageTotals(judgments[1..]);
    }
  }

  /** An accuracy is the share of correct ones. */
  ghost predicate IsAccuracy(accuracy: real, tally: Tally) {
    tally.total > 0 ==> accuracy * tally.total as real == tally.correct as real
  }

  lemma CountsAlike(judgments: seq<Judgment>, a: Judgment -> bool, b: Judgment -> bool, tally: Tally)
    requires forall j :: a(j) == b(j)
    requires Counts(judgments, a, tally)
    ensures Counts(judgments, b, tally)
  {
    assert Positions(judgments, a) == Positions(judgments, b);
    assert Positions(judgments, Both(a, (j: Judgment) => j.answer)) == Positions(judgments, Both(b, (j: Judgment) => j.answer));
  }

  /** A tally of the selected judgments with its accuracy. */
  ghost predicate Scored(judgments: seq<Judgment>, selected: Judgment -> bool, tally: Tally, accuracy: real) {
    Counts(judgments, selected, tally) && IsAccuracy(accuracy, tally)
  }

  lemma RatioScores(judgments: seq<Judgment>, selected: Judgment -> bool, other: Judgment -> bool)
    requires forall j :: selected(j) == other(j)
    ensures Scored(judgments, other, TallyOf(judgments, selected), Ratio(TallyOf(judgments, selected)))
  {
    TallyCounts(judgments, selected);
    CountsAlike(judgments, selected, other, TallyOf(judgments, selected));
    RatioIs(TallyOf(judgments, selected));
  }

  lemma NoMean()
    ensures IsMean(0.0, 0.0, 0)
  {
  }

  /** The summary counts all judgments, those whose question says so as abstentions, and those of each type, and every
      accuracy is the share of correct ones among them; that of the tasks is the mean over the types. */
  lemma SummaryMeans(cases: seq<Case>, judgments: seq<Judgment>)
    ensures var s := SummaryOf(cases, judgments);
            && Scored(judgments, (j: Judgment) => true, s.overall, s.overallAccuracy)
            && (s.abstentionAccuracy.Some? <==> s.abstention.total > 0)
            && Counts(judgments, (j: Judgment) => Contains(j.questionId, "_abs"), s.abstention)
            && (s.abstentionAccuracy.Some? ==> IsAccuracy(s.abstentionAccuracy.value, s.abstention))
            && (forall i :: 0 <= i < |s.byType| ==>
                  Scored(judgments, OfType(s.byType[i].kind), s.byType[i].tally, s.byType[i].accuracy))
            && IsMean(s.taskAveragedAccuracy, SumAccuracy(s.byType), |s.byType|)
  {
    var s := SummaryOf(cases, judgments);
    RatioScores(judgments, Anything(), (j: Judgment) => true);
    RatioScores(judgments, Abstains(), (j: Judgment) => Contains(j.questionId, "_abs"));
    forall i | 0 <= i < |s.byType|
      ensures Scored(judgments, OfType(s.byType[i].kind), s.byType[i].tally, s.byType[i].accuracy)
    {
      RatioScores(judgments, OfType(s.byType[i].kind), OfType(s.byType[i].kind));
    }
    if s.byType != [] {
      MeanIs(SumAccuracy(s.byType), |s.byType|);
    } else {
      NoMean();
    }
  }
}

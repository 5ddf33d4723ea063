/** The command lines of `src/daemon-client/semantic-launch-arguments.js` and
    `src/daemon-client/reranker-launch-arguments.js`, and the daemon's reading of them. */
module LaunchArguments {
  import opened Wrappers
  import opened Decimals
  import opened Arguments

  // ---------------------------------------------------------------------------------------
  // The daemon's options
  // ---------------------------------------------------------------------------------------

  const SEMANTIC := "--semantic"
  const SEMANTIC_MODEL := "--semantic-model"
  const SEMANTIC_REVISION := "--semantic-revision"
  const SEMANTIC_CACHE := "--semantic-cache"
  const SEMANTIC_INDEX := "--semantic-index"
  const SEMANTIC_CANDIDATES := "--semantic-candidates"
  const SEMANTIC_DIMENSIONS := "--semantic-dimensions"
  const SEMANTIC_POOLING := "--semantic-pooling"
  const RERANKER := "--reranker"
  const RERANKER_MODEL := "--reranker-model"
  const RERANKER_REVISION := "--reranker-revision"
  const RERANKER_CACHE := "--reranker-cache"
  const RERANKER_CANDIDATES := "--reranker-candidates"

  const VALUE_OPTIONS := {
    "--store", "--socket", "--log", "--stall-threshold-ms", "--slow-request-ms", "--idle-shutdown-ms",
    "--maintenance-interval-ms", "--retention-batch-size", "--retention-waves", "--compaction-deleted-keys",
    "--compaction-reclaimable-bytes", "--critical-free-bytes", "--admission-reserve-bytes",
    SEMANTIC_MODEL, SEMANTIC_REVISION, SEMANTIC_CACHE, SEMANTIC_INDEX, SEMANTIC_CANDIDATES, SEMANTIC_DIMENSIONS,
    SEMANTIC_POOLING, RERANKER_MODEL, RERANKER_REVISION, RERANKER_CACHE, RERANKER_CANDIDATES, "--user-settings"
  }

  const FLAG_OPTIONS := {"--allow-shutdown", SEMANTIC, RERANKER, "--help"}

  const DAEMON := Grammar(VALUE_OPTIONS, FLAG_OPTIONS)

  // ---------------------------------------------------------------------------------------
  // The printers
  // ---------------------------------------------------------------------------------------

  datatype Semantic = Semantic(
    enabled: bool, model: string, revision: string, cachePath: string, indexPath: string, candidates: nat,
    dimensions: Option<nat>, pooling: Option<string>)

  datatype Reranker = Reranker(
    enabled: bool, model: string, revision: string, cachePath: string, candidateWindow: nat)

  method SemanticLaunchArguments(semantic: Option<Semantic>) returns (args: seq<string>)
    ensures args == Render(SemanticItems(semantic))
  {
    if semantic.None? || !semantic.value.enabled {
      return [];
    }
    var s := semantic.value;
    args := [SEMANTIC, SEMANTIC_MODEL, s.model, SEMANTIC_REVISION, s.revision, SEMANTIC_CACHE, s.cachePath,
             SEMANTIC_INDEX, s.indexPath, SEMANTIC_CANDIDATES, Decimal(s.candidates)];
    BasicSpelling(s);
    if s.dimensions.Some? {
      args := args + [SEMANTIC_DIMENSIONS, Decimal(s.dimensions.value)];
    }
    if s.pooling.Some? {
      args := args + [SEMANTIC_POOLING, s.pooling.value];
    }
    SemanticSpelling(s);
  }

  function RerankerLaunchArguments(reranker: Option<Reranker>): (args: seq<string>) {
    if reranker.None? || !reranker.value.enabled then []
    else
      [RERANKER, RERANKER_MODEL, reranker.value.model, RERANKER_REVISION, reranker.value.revision,
       RERANKER_CACHE, reranker.value.cachePath, RERANKER_CANDIDATES, Decimal(reranker.value.candidateWindow)]
  }

  // ---------------------------------------------------------------------------------------
  // What is printed
  // ---------------------------------------------------------------------------------------

  function BasicItems(s: Semantic): seq<Item> {
    [Flag(SEMANTIC), Valued(SEMANTIC_MODEL, s.model), Valued(SEMANTIC_REVISION, s.revision),
     Valued(SEMANTIC_CACHE, s.cachePath), Valued(SEMANTIC_INDEX, s.indexPath),
     Valued(SEMANTIC_CANDIDATES, Decimal(s.candidates))]
  }

  function DimensionItems(s: Semantic): seq<Item> {
    if s.dimensions.Some? then [Valued(SEMANTIC_DIMENSIONS, Decimal(s.dimensions.value))] else []
  }

  function PoolingItems(s: Semantic): seq<Item> {
    if s.pooling.Some? then [Valued(SEMANTIC_POOLING, s.pooling.value)] else []
  }

  function SemanticItems(semantic: Option<Semantic>): seq<Item> {
    if semantic.None? || !semantic.value.enabled then []
    else BasicItems(semantic.value) + DimensionItems(semantic.value) + PoolingItems(semantic.value)
  }

  function RerankerItems(reranker: Option<Reranker>): seq<Item> {
    if reranker.None? || !reranker.value.enabled then []
    else
      [Flag(RERANKER), Valued(RERANKER_MODEL, reranker.value.model), Valued(RERANKER_REVISION, reranker.value.revision),
       Valued(RERANKER_CACHE, reranker.value.cachePath), Valued(RERANKER_CANDIDATES, Decimal(reranker.value.candidateWindow))]
  }

  lemma RenderSix(a: Item, b: Item, c: Item, d: Item, e: Item, f: Item)
    requires a.Flag? && b.Valued? && c.Valued? && d.Valued? && e.Valued? && f.Valued?
    ensures Render([a, b, c, d, e, f])
         == [a.name, b.name, b.value, c.name, c.value, d.name, d.value, e.name, e.value, f.name, f.value]
  {
    assert [a, b, c, d, e, f][1..] == [b, c, d, e, f];
    RenderFive(b, c, d, e, f);
  }

  lemma RenderFive(b: Item, c: Item, d: Item, e: Item, f: Item)
    requires b.Valued? && c.Valued? && d.Valued? && e.Valued? && f.Valued?
    ensures Render([b, c, d, e, f])
         == [b.name, b.value, c.name, c.value, d.name, d.value, e.name, e.value, f.name, f.value]
  {
    assert [b, c, d, e, f][1..] == [c, d, e, f];
    RenderFour(c, d, e, f);
  }

  lemma RenderFour(c: Item, d: Item, e: Item, f: Item)
    requires c.Valued? && d.Valued? && e.Valued? && f.Valued?
    ensures Render([c, d, e, f]) == [c.name, c.value, d.name, d.value, e.name, e.value, f.name, f.value]
  {
    assert [c, d, e, f][1..] == [d, e, f] && [d, e, f][1..] == [e, f] && [e, f][1..] == [f];
    assert Render([f]) == [f.name, f.value];
    assert Render([e, f]) == [e.name, e.value, f.name, f.value];
    assert Render([d, e, f]) == [d.name, d.value, e.name, e.value, f.name, f.value];
  }

  lemma BasicSpelling(s: Semantic)
    ensures Render(BasicItems(s))
         == [SEMANTIC, SEMANTIC_MODEL, s.model, SEMANTIC_REVISION, s.revision, SEMANTIC_CACHE, s.cachePath,
             SEMANTIC_INDEX, s.indexPath, SEMANTIC_CANDIDATES, Decimal(s.candidates)]
  {
    RenderSix(Flag(SEMANTIC), Valued(SEMANTIC_MODEL, s.model), Valued(SEMANTIC_REVISION, s.revision),
              Valued(SEMANTIC_CACHE, s.cachePath), Valued(SEMANTIC_INDEX, s.indexPath),
              Valued(SEMANTIC_CANDIDATES, Decimal(s.candidates)));
  }

  lemma RenderOne(name: string, value: string)
    ensures Render([Valued(name, value)]) == [name, value]
  {
  }

  lemma SemanticSpelling(s: Semantic)
    ensures Render(BasicItems(s) + DimensionItems(s) + PoolingItems(s))
         == Render(BasicItems(s))
            + (if s.dimensions.Some? then [SEMANTIC_DIMENSIONS, Decimal(s.dimensions.value)] else [])
            + (if s.pooling.Some? then [SEMANTIC_POOLING, s.pooling.value] else [])
  {
    RenderConcat(BasicItems(s), DimensionItems(s));
    RenderConcat(BasicItems(s) + DimensionItems(s), PoolingItems(s));
    if s.dimensions.Some? {
      RenderOne(SEMANTIC_DIMENSIONS, Decimal(s.dimensions.value));
    }
    if s.pooling.Some? {
      RenderOne(SEMANTIC_POOLING, s.pooling.value);
    }
  }

  /** The reranker's command line lists its items. */
  lemma RerankerSpelling(reranker: Option<Reranker>)
    ensures RerankerLaunchArguments(reranker) == Render(RerankerItems(reranker))
  {
    if reranker.Some? && reranker.value.enabled {
      var r := reranker.value;
      var a, b := Flag(RERANKER), Valued(RERANKER_MODEL, r.model);
      var c, d := Valued(RERANKER_REVISION, r.revision), Valued(RERANKER_CACHE, r.cachePath);
      var e := Valued(RERANKER_CANDIDATES, Decimal(r.candidateWindow));
      assert [a, b, c, d, e][1..] == [b, c, d, e];
      RenderFour(b, c, d, e);
    }
  }

  // ---------------------------------------------------------------------------------------
  // The round trip
  // ---------------------------------------------------------------------------------------

  lemma SemanticNames()
    ensures |SEMANTIC| == 10 && |SEMANTIC_MODEL| == |SEMANTIC_CACHE| == |SEMANTIC_INDEX| == 16
    ensures |SEMANTIC_REVISION| == 19 && |SEMANTIC_POOLING| == 18
    ensures |SEMANTIC_CANDIDATES| == |SEMANTIC_DIMENSIONS| == 21
    ensures SEMANTIC_MODEL[11] == 'm' && SEMANTIC_CACHE[11] == 'c' && SEMANTIC_INDEX[11] == 'i'
    ensures SEMANTIC_CANDIDATES[11] == 'c' && SEMANTIC_DIMENSIONS[11] == 'd'
  {
  }

  lemma RerankerNames()
    ensures |RERANKER| == 10 && |RERANKER_MODEL| == |RERANKER_CACHE| == 16
    ensures |RERANKER_REVISION| == 19 && |RERANKER_CANDIDATES| == 21
    ensures RERANKER_MODEL[11] == 'm' && RERANKER_CACHE[11] == 'c'
  {
  }

  ghost predicate Initial(name: string, c: char) {
    |name| >= 10 && name[2] == c
  }

  ghost predicate AllInitial(items: seq<Item>, c: char) {
    forall i :: 0 <= i < |items| ==> Initial(items[i].name, c)
  }

  lemma SemanticInitials()
    ensures Initial(SEMANTIC, 's') && Initial(SEMANTIC_MODEL, 's') && Initial(SEMANTIC_REVISION, 's')
    ensures Initial(SEMANTIC_CACHE, 's') && Initial(SEMANTIC_INDEX, 's') && Initial(SEMANTIC_CANDIDATES, 's')
    ensures Initial(SEMANTIC_DIMENSIONS, 's') && Initial(SEMANTIC_POOLING, 's')
  {
  }

  lemma RerankerInitials()
    ensures Initial(RERANKER, 'r') && Initial(RERANKER_MODEL, 'r') && Initial(RERANKER_REVISION, 'r')
    ensures Initial(RERANKER_CACHE, 'r') && Initial(RERANKER_CANDIDATES, 'r')
  {
  }

  /** What a caller has to make sure of: values are not empty and do not look like options. */
  predicate UsableSemantic(semantic: Option<Semantic>) {
    semantic.Some? && semantic.value.enabled ==>
      var s := semantic.value;
      Usable(s.model) && Usable(s.revision) && Usable(s.cachePath) && Usable(s.indexPath)
      && (s.pooling.Some? ==> Usable(s.pooling.value))
  }

  predicate UsableReranker(reranker: Option<Reranker>) {
    reranker.Some? && reranker.value.enabled ==>
      Usable(reranker.value.model) && Usable(reranker.value.revision) && Usable(reranker.value.cachePath)
  }

  lemma DecimalUsable(n: nat)
    ensures Usable(Decimal(n))
  {
    assert Decimal(n)[0] in Decimal(n);
  }

  lemma BasicDistinct(s: Semantic)
    ensures Distinct(BasicItems(s)) && AllInitial(BasicItems(s), 's')
    ensures forall i :: 0 <= i < |BasicItems(s)| ==>
              BasicItems(s)[i].name != SEMANTIC_DIMENSIONS && BasicItems(s)[i].name != SEMANTIC_POOLING
  {
    SemanticNames();
    SemanticInitials();
  }

  lemma SemanticDistinct(semantic: Option<Semantic>)
    ensures Distinct(SemanticItems(semantic)) && AllInitial(SemanticItems(semantic), 's')
  {
    if semantic.Some? && semantic.value.enabled {
      var s := semantic.value;
      BasicDistinct(s);
      SemanticNames();
      SemanticInitials();
      BothDistinct(BasicItems(s), DimensionItems(s));
      BothDistinct(BasicItems(s) + DimensionItems(s), PoolingItems(s));
    }
  }

  lemma RerankerDistinct(reranker: Option<Reranker>)
    ensures Distinct(RerankerItems(reranker)) && AllInitial(RerankerItems(reranker), 'r')
  {
    RerankerNames();
    RerankerInitials();
  }

  lemma InitialsApart(a: seq<Item>, b: seq<Item>)
    requires AllInitial(a, 's') && AllInitial(b, 'r')
    ensures Apart(a, b)
  {
    forall i, j | 0 <= i < |a| && 0 <= j < |b|
      ensures a[i].name != b[j].name
    {
      assert Initial(a[i].name, 's') && Initial(b[j].name, 'r');
    }
  }

  lemma ValueOptions()
    ensures SEMANTIC_MODEL in VALUE_OPTIONS && SEMANTIC_REVISION in VALUE_OPTIONS && SEMANTIC_CACHE in VALUE_OPTIONS
    ensures SEMANTIC_INDEX in VALUE_OPTIONS && SEMANTIC_CANDIDATES in VALUE_OPTIONS
    ensures SEMANTIC_DIMENSIONS in VALUE_OPTIONS && SEMANTIC_POOLING in VALUE_OPTIONS
    ensures RERANKER_MODEL in VALUE_OPTIONS && RERANKER_REVISION in VALUE_OPTIONS && RERANKER_CACHE in VALUE_OPTIONS
    ensures RERANKER_CANDIDATES in VALUE_OPTIONS
  {
  }

  /** The flags differ from all longer options, and `--help` and `--allow-shutdown` from those printed here. */
  lemma NotFlags(name: string)
    requires |name| >= 16 && (name[2] == 's' || name[2] == 'r')
    ensures name !in FLAG_OPTIONS
  {
    SemanticNames();
    RerankerNames();
    assert "--allow-shutdown"[2] == 'a' && |"--help"| == 6;
  }

  lemma BasicNamed(s: Semantic)
    ensures AllNamed(DAEMON, BasicItems(s)) && AllNamed(DAEMON, DimensionItems(s)) && AllNamed(DAEMON, PoolingItems(s))
  {
    ValueOptions();
    SemanticNames();
    SemanticInitials();
    NotFlags(SEMANTIC_MODEL);
    NotFlags(SEMANTIC_REVISION);
    NotFlags(SEMANTIC_CACHE);
    NotFlags(SEMANTIC_INDEX);
    NotFlags(SEMANTIC_CANDIDATES);
    NotFlags(SEMANTIC_DIMENSIONS);
    NotFlags(SEMANTIC_POOLING);
  }

  lemma BasicFilled(s: Semantic)
    ensures AllFilled(BasicItems(s)) <==> Usable(s.model) && Usable(s.revision) && Usable(s.cachePath) && Usable(s.indexPath)
  {
    var items := BasicItems(s);
    DecimalUsable(s.candidates);
    if AllFilled(items) {
      assert Filled(items[1]) && Filled(items[2]) && Filled(items[3]) && Filled(items[4]);
    }
  }

  lemma SemanticNamed(semantic: Option<Semantic>)
    ensures AllNamed(DAEMON, SemanticItems(semantic))
    ensures AllFilled(SemanticItems(semantic)) <==> UsableSemantic(semantic)
  {
    if semantic.Some? && semantic.value.enabled {
      var s := semantic.value;
      BasicNamed(s);
      BasicFilled(s);
      if s.dimensions.Some? {
        DecimalUsable(s.dimensions.value);
      }
      FilledConcat(BasicItems(s), DimensionItems(s));
      FilledConcat(BasicItems(s) + DimensionItems(s), PoolingItems(s));
      assert s.pooling.Some? ==> (AllFilled(PoolingItems(s)) <==> Filled(PoolingItems(s)[0]));
    }
  }

  lemma FilledConcat(a: seq<Item>, b: seq<Item>)
    ensures AllFilled(a + b) <==> AllFilled(a) && AllFilled(b)
  {
    if AllFilled(a + b) {
      assert forall i :: 0 <= i < |a| ==> (a + b)[i] == a[i];
      assert forall i :: 0 <= i < |b| ==> (a + b)[|a| + i] == b[i];
    }
  }

  lemma RerankerNamed(reranker: Option<Reranker>)
    ensures AllNamed(DAEMON, RerankerItems(reranker))
    ensures AllFilled(RerankerItems(reranker)) <==> UsableReranker(reranker)
  {
    if reranker.Some? && reranker.value.enabled {
      var items := RerankerItems(reranker);
      ValueOptions();
      RerankerNames();
      RerankerInitials();
      DecimalUsable(reranker.value.candidateWindow);
      NotFlags(RERANKER_MODEL);
      NotFlags(RERANKER_REVISION);
      NotFlags(RERANKER_CACHE);
      NotFlags(RERANKER_CANDIDATES);
      if AllFilled(items) {
        assert Filled(items[1]) && Filled(items[2]) && Filled(items[3]);
      }
    }
  }

  lemma NamedConcat(a: seq<Item>, b: seq<Item>)
    requires AllNamed(DAEMON, a) && AllNamed(DAEMON, b)
    ensures AllNamed(DAEMON, a + b)
  {
  }

  /** The daemon reads back exactly what was printed: both command lines together, in either order, are
      accepted with the options and flags of their items and no others, if and only if every value can be
      told from an option. */
  lemma LaunchRoundTrip(semantic: Option<Semantic>, reranker: Option<Reranker>)
    ensures var first, second := Render(SemanticItems(semantic)), RerankerLaunchArguments(reranker);
            var outcome := Parse(DAEMON, first + second);
            if UsableSemantic(semantic) && UsableReranker(reranker) then
              && outcome.Accepted?
              && outcome == Parse(DAEMON, second + first)
              && Records(outcome.parsed, SemanticItems(semantic) + RerankerItems(reranker), NOTHING)
            else outcome.RequiresValue? && Parse(DAEMON, second + first).RequiresValue?
  {
    var a, b := SemanticItems(semantic), RerankerItems(reranker);
    SemanticNamed(semantic);
    RerankerNamed(reranker);
    SemanticDistinct(semantic);
    RerankerDistinct(reranker);
    RerankerSpelling(reranker);
    InitialsApart(a, b);
    if UsableSemantic(semantic) && UsableReranker(reranker) {
      EitherOrder(DAEMON, a, b);
    } else {
      BothDistinct(a, b);
      FilledConcat(a, b);
      FilledConcat(b, a);
      NamedConcat(a, b);
      NamedConcat(b, a);
      RenderConcat(a, b);
      RenderConcat(b, a);
      UnusableRejected(DAEMON, a + b, NOTHING);
      UnusableRejected(DAEMON, b + a, NOTHING);
    }
  }

  // ---------------------------------------------------------------------------------------
  // What the daemon learns
  // ---------------------------------------------------------------------------------------

  /** The option carries the field of the configuration that it is named after. */
  predicate SemanticSays(s: Semantic, option: string, value: string) {
    || (option == "--semantic-model" && value == s.model)
    || (option == "--semantic-revision" && value == s.revision)
    || (option == "--semantic-cache" && value == s.cachePath)
    || (option == "--semantic-index" && value == s.indexPath)
    || (option == "--semantic-candidates" && value == Decimal(s.candidates))
    || (option == "--semantic-dimensions" && s.dimensions.Some? && value == Decimal(s.dimensions.value))
    || (option == "--semantic-pooling" && s.pooling == Some(value))
  }

  predicate RerankerSays(r: Reranker, option: string, value: string) {
    || (option == "--reranker-model" && value == r.model)
    || (option == "--reranker-revision" && value == r.revision)
    || (option == "--reranker-cache" && value == r.cachePath)
    || (option == "--reranker-candidates" && value == Decimal(r.candidateWindow))
  }

  lemma SemanticItemsSay(s: Semantic, option: string, value: string)
    ensures Valued(option, value) in BasicItems(s) + DimensionItems(s) + PoolingItems(s) <==> SemanticSays(s, option, value)
  {
    var basic := BasicItems(s);
    assert Valued(option, value) in basic <==>
        Valued(option, value) in {basic[1], basic[2], basic[3], basic[4], basic[5]};
  }

  lemma RerankerItemsSay(r: Reranker, option: string, value: string)
    ensures Valued(option, value) in RerankerItems(Some(r.(enabled := true))) <==> RerankerSays(r, option, value)
  {
    var items := RerankerItems(Some(r.(enabled := true)));
    assert Valued(option, value) in items <==> Valued(option, value) in {items[1], items[2], items[3], items[4]};
  }

  predicate ConfigurationSays(semantic: Option<Semantic>, reranker: Option<Reranker>, option: string, value: string) {
    || (semantic.Some? && semantic.value.enabled && SemanticSays(semantic.value, option, value))
    || (reranker.Some? && reranker.value.enabled && RerankerSays(reranker.value, option, value))
  }

  lemma ItemsSay(semantic: Option<Semantic>, reranker: Option<Reranker>, option: string, value: string)
    ensures Valued(option, value) in SemanticItems(semantic) + RerankerItems(reranker)
       <==> ConfigurationSays(semantic, reranker, option, value)
  {
    if semantic.Some? {
      SemanticItemsSay(semantic.value, option, value);
    }
    if reranker.Some? {
      RerankerItemsSay(reranker.value, option, value);
    }
  }

  lemma ItemsFlag(semantic: Option<Semantic>, reranker: Option<Reranker>, flag: string)
    ensures Flag(flag) in SemanticItems(semantic) + RerankerItems(reranker) <==>
              || (flag == "--semantic" && semantic.Some? && semantic.value.enabled)
              || (flag == "--reranker" && reranker.Some? && reranker.value.enabled)
  {
    if semantic.Some? && semantic.value.enabled {
      assert SemanticItems(semantic)[0] == Flag(SEMANTIC);
      assert forall i :: 0 < i < |SemanticItems(semantic)| ==> SemanticItems(semantic)[i].Valued?;
    }
    if reranker.Some? && reranker.value.enabled {
      assert RerankerItems(reranker)[0] == Flag(RERANKER);
      assert forall i :: 0 < i < |RerankerItems(reranker)| ==> RerankerItems(reranker)[i].Valued?;
    }
  }

  /** What the daemon reads is the configuration: every option is given the field it is named after, and the flags say
      what is enabled. */
  lemma ConfigurationRead(semantic: Option<Semantic>, reranker: Option<Reranker>)
    requires UsableSemantic(semantic) && UsableReranker(reranker)
    ensures var outcome := Parse(DAEMON, Render(SemanticItems(semantic)) + RerankerLaunchArguments(reranker));
            && outcome.Accepted?
            && (forall option, value ::
                  option in outcome.parsed.values && outcome.parsed.values[option] == value
                  <==> ConfigurationSays(semantic, reranker, option, value))
            && (forall flag :: flag in outcome.parsed.flags <==>
                  || (flag == "--semantic" && semantic.Some? && semantic.value.enabled)
                  || (flag == "--reranker" && reranker.Some? && reranker.value.enabled))
  {
    LaunchRoundTrip(semantic, reranker);
    var parsed := Parse(DAEMON, Render(SemanticItems(semantic)) + RerankerLaunchArguments(reranker)).parsed;
    forall option, value
      ensures option in parsed.values && parsed.values[option] == value <==> ConfigurationSays(semantic, reranker, option, value)
    {
      ItemsSay(semantic, reranker, option, value);
    }
    forall flag
      ensures flag in parsed.flags <==>
                || (flag == "--semantic" && semantic.Some? && semantic.value.enabled)
                || (flag == "--reranker" && reranker.Some? && reranker.value.enabled)
    {
      ItemsFlag(semantic, reranker, flag);
    }
  }
}

/** The memory context of `eval/agent-memory/compatibility.js`: a token budget shared out among results
    that carry text, images or both. */
module QueryContext {
  import opened Wrappers
  import opened Sequences
  import opened Numbers
  import opened TokenEstimate
  import opened Presentation

  datatype Result = Result(id: string, snippet: string, text: string, hasTextEvidence: bool, imagePaths: seq<string>)

  datatype Item = Text(value: string) | Image(path: string)

  type Positive = n: nat | n > 0 witness 1

  datatype Settings = Settings(budget: Positive, imageTokens: Positive, maxImages: Positive, includeImages: bool)

  // ---------------------------------------------------------------------------------------
  // Sharing out a budget, whatever a result makes of its share
  // ---------------------------------------------------------------------------------------

  function ItemBudget(remaining: int, resultsLeft: Positive): (n: nat)
    ensures n >= 1
  {
    Max(1, remaining / resultsLeft)
  }

  /** What a result contributes for a share, and what it is charged. */
  datatype Sharing = Sharing(items: (Result, nat) -> seq<Item>, charge: (Result, nat) -> nat)

  /** The context of the results with `remaining` tokens left. */
  function ContextOf(sharing: Sharing, results: seq<Result>, remaining: int): seq<Item>
    decreases |results|
  {
    if results == [] then []
    else
      var itemBudget := ItemBudget(remaining, |results|);
      sharing.items(results[0], itemBudget)
      + ContextOf(sharing, results[1..], remaining - sharing.charge(results[0], itemBudget))
  }

  /** What the results are charged in all. */
  function TotalCharge(sharing: Sharing, results: seq<Result>, remaining: int): nat
    decreases |results|
  {
    if results == [] then 0
    else
      var charge := sharing.charge(results[0], ItemBudget(remaining, |results|));
      charge + TotalCharge(sharing, results[1..], remaining - charge)
  }

  /** The share of the first of `k` results leaves the others at least one token each, if there were
      that many; otherwise it is a single token. */
  lemma ShareLeavesEnough(remaining: int, k: Positive)
    ensures remaining >= k ==> remaining - ItemBudget(remaining, k) >= k - 1
    ensures remaining < k ==> ItemBudget(remaining, k) == 1
    ensures k == 1 && remaining >= 1 ==> ItemBudget(remaining, k) == remaining
  {
    if remaining >= k {
      DivisionOf(remaining, k);
      NonNegative(remaining / k - 1, k - 1);
    }
  }

  lemma DivisionOf(n: nat, k: Positive)
    requires n >= k
    ensures n / k >= 1 && n - n / k == (n / k - 1) * (k - 1) + (k - 1) + n % k
  {
    assert n == n / k * k + n % k;
    assert (n / k - 1) * (k - 1) == n / k * k - n / k - k + 1;
  }

  lemma NonNegative(a: nat, b: nat)
    ensures a * b >= 0
  {
  }

  /** No result is charged more than its share. */
  ghost predicate Fair(sharing: Sharing) {
    forall result, budget: nat :: budget >= 1 ==> sharing.charge(result, budget) <= budget
  }

  /** Each of the results is charged its whole share. */
  ghost predicate Full(sharing: Sharing, results: seq<Result>) {
    forall i, budget: nat :: 0 <= i < |results| && budget >= 1 ==> sharing.charge(results[i], budget) == budget
  }

  /** The charges stay within the budget, or within one token a result if the budget is smaller; and they
      reach that if every result uses up its share. */
  lemma {:induction false} TotalChargeBounded(sharing: Sharing, results: seq<Result>, remaining: int)
    requires Fair(sharing)
    ensures TotalCharge(sharing, results, remaining) <= Max(remaining, |results|)
    ensures Full(sharing, results) && results != [] ==> TotalCharge(sharing, results, remaining) == Max(remaining, |results|)
    decreases |results|
  {
    if results != [] {
      var itemBudget := ItemBudget(remaining, |results|);
      ShareLeavesEnough(remaining, |results|);
      assert Full(sharing, results) ==> Full(sharing, results[1..]);
      TotalChargeBounded(sharing, results[1..], remaining - sharing.charge(results[0], itemBudget));
    }
  }

  /** The shares handed out, one after the other. */
  function Shares(sharing: Sharing, results: seq<Result>, remaining: int): (shares: seq<nat>)
    ensures |shares| == |results|
    decreases |results|
  {
    if results == [] then []
    else
      var share := ItemBudget(remaining, |results|);
      [share] + Shares(sharing, results[1..], remaining - sharing.charge(results[0], share))
  }

  /** A share is the greatest number of tokens that all results still to come could have alike, and at least
      one token. */
  lemma ShareGreatest(remaining: int, k: Positive)
    ensures var share := ItemBudget(remaining, k);
            if remaining < k then share == 1 else share * k <= remaining < (share + 1) * k
  {
    if remaining >= k {
      DivisionOf(remaining, k);
    } else if remaining >= 0 {
      assert remaining / k == 0;
    }
  }

  /** What is left once the first `i` results have been charged. */
  function Left(sharing: Sharing, results: seq<Result>, remaining: int, i: nat): int
    requires i <= |results|
    decreases i
  {
    if i == 0 then remaining
    else Left(sharing, results[1..], remaining - sharing.charge(results[0], ItemBudget(remaining, |results|)), i - 1)
  }

  /** Each result in turn has an even share of what the earlier ones have left. */
  lemma {:induction false} SharesGreatest(sharing: Sharing, results: seq<Result>, remaining: int, i: nat)
    requires i < |results|
    ensures var share, left, k := Shares(sharing, results, remaining)[i], Left(sharing, results, remaining, i), |results| - i;
            if left < k then share == 1 else share * k <= left < (share + 1) * k
    decreases i
  {
    ShareGreatest(remaining, |results|);
    if i > 0 {
      SharesGreatest(sharing, results[1..], remaining - sharing.charge(results[0], ItemBudget(remaining, |results|)), i - 1);
    }
  }

  lemma MultipleGrows(d: int, k: Positive)
    ensures d >= 1 ==> d * k >= k
    ensures d <= -1 ==> d * k + k <= 0
  {
  }

  lemma QuotientIs(n: int, k: Positive, q: int)
    requires q * k <= n < (q + 1) * k
    ensures n / k == q
  {
    var d := n / k - q;
    assert n == n / k * k + n % k;
    assert d * k == n / k * k - q * k && (q + 1) * k == q * k + k;
    MultipleGrows(d, k);
  }

  /** The quotients of consecutive numbers, shared out one after the other. */
  lemma EvenStep(n: nat, k: nat, i: nat)
    requires k > 1 && n >= k && 0 < i < k
    ensures (n - n / k + (i - 1)) / (k - 1) == (n + i) / k
  {
    var q, r := n / k, n % k;
    assert n == q * k + r;
    assert n - q + (i - 1) == q * (k - 1) + (r + i - 1);
    if r + i < k {
      QuotientIs(n + i, k, q);
      QuotientIs(n - q + (i - 1), k - 1, q);
    } else {
      assert (q + 1) * k == q * k + k && (q + 2) * k == q * k + 2 * k;
      QuotientIs(n + i, k, q + 1);
      assert (q + 1) * (k - 1) == q * (k - 1) + (k - 1) && (q + 2) * (k - 1) == q * (k - 1) + 2 * (k - 1);
      QuotientIs(n - q + (i - 1), k - 1, q + 1);
    }
  }

  /** If every result uses up its share, the shares are even: they differ by at most one token, the greater ones
      last, and are one token each where the budget is too small. */
  lemma {:induction false} SharesEven(sharing: Sharing, results: seq<Result>, remaining: int, i: nat)
    requires Full(sharing, results) && i < |results|
    ensures Shares(sharing, results, remaining)[i] == (Max(remaining, |results|) + i) / |results|
    decreases |results|
  {
    var k := |results|;
    var share := ItemBudget(remaining, k);
    ShareGreatest(remaining, k);
    QuotientIs(Max(remaining, k), k, share);
    if i == 0 {
    } else {
      ShareLeavesEnough(remaining, k);
      assert Full(sharing, results[1..]);
      assert sharing.charge(results[0], share) == share;
      SharesEven(sharing, results[1..], remaining - share, i - 1);
      EvenStep(Max(remaining, k), k, i);
    }
  }

  // ---------------------------------------------------------------------------------------
  // What a result makes of its share
  // ---------------------------------------------------------------------------------------

  function AtMost<T>(items: seq<T>, n: nat): (some: seq<T>)
    ensures some <= items && |some| == if n <= |items| then n else |items|
  {
    if n <= |items| then items[..n] else items
  }

  /** The images of one result that its share of the budget pays for. */
  function Selected(settings: Settings, result: Result, itemBudget: nat): (images: seq<string>)
    ensures images <= result.imagePaths && |images| <= settings.maxImages
  {
    var images := if settings.includeImages then AtMost(result.imagePaths, settings.maxImages) else [];
    AtMost(images, if result.hasTextEvidence then Max(0, (itemBudget - 1) / settings.imageTokens)
                   else itemBudget / settings.imageTokens)
  }

  /** The tokens that are left for the text of a result. */
  function TextBudget(settings: Settings, result: Result, itemBudget: nat): (n: nat)
    ensures n >= 1
  {
    Max(1, itemBudget - |Selected(settings, result, itemBudget)| * settings.imageTokens)
  }

  function EvidenceText(result: Result): string {
    "[ARCHIVED HISTORICAL EVIDENCE]\n" + "Source: " + result.id + "\nMatched excerpt: " + result.snippet
    + "\nSource text:\n" + result.text
  }

  /** The text shown for a result within so many tokens. */
  type Rendering = (Result, nat) -> string

  function CappedEvidence(u: Unicode): Rendering {
    (result: Result, tokens: nat) => CapText(u, EvidenceText(result), Finite(tokens as real))
  }

  function Images(paths: seq<string>): seq<Item> {
    if paths == [] then [] else [Image(paths[0])] + Images(paths[1..])
  }

  function TextItems(render: Rendering, settings: Settings, result: Result, itemBudget: nat): seq<Item> {
    if result.hasTextEvidence then [Text(render(result, TextBudget(settings, result, itemBudget)))] else []
  }

  function Charge(settings: Settings, result: Result, itemBudget: nat): nat {
    |Selected(settings, result, itemBudget)| * settings.imageTokens
    + if result.hasTextEvidence then TextBudget(settings, result, itemBudget) else 0
  }

  function SharingOf(render: Rendering, settings: Settings): Sharing {
    Sharing((result: Result, itemBudget: nat) =>
              TextItems(render, settings, result, itemBudget) + Images(Selected(settings, result, itemBudget)),
            (result: Result, itemBudget: nat) => Charge(settings, result, itemBudget))
  }

  lemma ShareOfImages(budget: nat, tokens: Positive, n: nat)
    requires n <= budget / tokens
    ensures n * tokens <= budget
  {
    assert n * tokens <= budget / tokens * tokens <= budget;
  }

  /** A result is charged at most its share, and exactly its share if it has text. */
  lemma ChargeWithinShare(settings: Settings, result: Result, itemBudget: nat)
    requires itemBudget >= 1
    ensures Charge(settings, result, itemBudget) <= itemBudget
    ensures Charge(settings, result, itemBudget)
         == if result.hasTextEvidence then itemBudget else |Selected(settings, result, itemBudget)| * settings.imageTokens
  {
    ShareOfImages(if result.hasTextEvidence then itemBudget - 1 else itemBudget, settings.imageTokens,
                  |Selected(settings, result, itemBudget)|);
  }

  /** No image is left out that the share would pay for and the settings allow. */
  lemma SelectedMaximal(settings: Settings, result: Result, itemBudget: nat)
    requires itemBudget >= 1
    ensures var n := |Selected(settings, result, itemBudget)|;
            settings.includeImages && n < |result.imagePaths| && n < settings.maxImages ==>
              (n + 1) * settings.imageTokens > if result.hasTextEvidence then itemBudget - 1 else itemBudget
  {
    var budget := if result.hasTextEvidence then itemBudget - 1 else itemBudget;
    assert (budget / settings.imageTokens + 1) * settings.imageTokens > budget;
  }

  lemma SharingIsFair(render: Rendering, settings: Settings)
    ensures Fair(SharingOf(render, settings))
  {
    forall result, budget: nat | budget >= 1
      ensures SharingOf(render, settings).charge(result, budget) <= budget
    {
      ChargeWithinShare(settings, result, budget);
    }
  }

  lemma TextUsesShares(render: Rendering, settings: Settings, results: seq<Result>)
    requires forall i :: 0 <= i < |results| ==> results[i].hasTextEvidence
    ensures Full(SharingOf(render, settings), results)
  {
    forall i, budget: nat | 0 <= i < |results| && budget >= 1
      ensures SharingOf(render, settings).charge(results[i], budget) == budget
    {
      ChargeWithinShare(settings, results[i], budget);
    }
  }

  /** The caps and image charges handed out total at most the budget, or one token a result if that is
      more; and exactly that when every result has text. */
  lemma ChargesBounded(render: Rendering, settings: Settings, results: seq<Result>)
    ensures TotalCharge(SharingOf(render, settings), results, settings.budget) <= Max(settings.budget, |results|)
    ensures results != [] && (forall i :: 0 <= i < |results| ==> results[i].hasTextEvidence) ==>
              TotalCharge(SharingOf(render, settings), results, settings.budget) == Max(settings.budget, |results|)
  {
    SharingIsFair(render, settings);
    TotalChargeBounded(SharingOf(render, settings), results, settings.budget);
    if forall i :: 0 <= i < |results| ==> results[i].hasTextEvidence {
      TextUsesShares(render, settings, results);
    }
  }

  /** What is shown of a result within a share, with its first `n` images: the text, if there is any, in what the
      images leave of the share, and then these images. */
  function ShownOf(render: Rendering, settings: Settings, result: Result, share: nat, n: nat): seq<Item>
    requires n <= |result.imagePaths| && ImagesFit(settings, result, share, n)
  {
    (if result.hasTextEvidence then [Text(render(result, share - n * settings.imageTokens))] else [])
    + Images(result.imagePaths[..n])
  }

  function Shown(render: Rendering, settings: Settings, results: seq<Result>, shares: seq<nat>, images: seq<nat>): seq<Item>
    requires |shares| == |images| == |results|
    requires forall i :: 0 <= i < |results| ==>
               images[i] <= |results[i].imagePaths| && ImagesFit(settings, results[i], shares[i], images[i])
    decreases |results|
  {
    if results == [] then []
    else
      ShownOf(render, settings, results[0], shares[0], images[0])
      + Shown(render, settings, results[1..], shares[1..], images[1..])
  }

  /** The share pays for so many images, besides one token of text if there is text. */
  predicate ImagesFit(settings: Settings, result: Result, share: nat, n: nat) {
    n * settings.imageTokens + (if result.hasTextEvidence then 1 else 0) <= share
  }

  /** The greatest number of images that the share pays for and the settings allow. */
  ghost predicate ImagesOf(settings: Settings, result: Result, share: nat, n: nat) {
    && n <= |result.imagePaths| && n <= settings.maxImages && (n > 0 ==> settings.includeImages)
    && ImagesFit(settings, result, share, n)
    && (settings.includeImages && n < |result.imagePaths| && n < settings.maxImages ==>
          !ImagesFit(settings, result, share, n + 1))
  }

  lemma SelectedAre(settings: Settings, result: Result, share: nat)
    requires share >= 1
    ensures ImagesOf(settings, result, share, |Selected(settings, result, share)|)
    ensures Selected(settings, result, share) == result.imagePaths[..|Selected(settings, result, share)|]
  {
    ShareOfImages(if result.hasTextEvidence then share - 1 else share, settings.imageTokens,
                  |Selected(settings, result, share)|);
    SelectedMaximal(settings, result, share);
  }

  lemma ItemsShown(render: Rendering, settings: Settings, result: Result, share: nat)
    requires share >= 1
    ensures var n := |Selected(settings, result, share)|;
            && ImagesOf(settings, result, share, n)
            && SharingOf(render, settings).items(result, share) == ShownOf(render, settings, result, share, n)
  {
    SelectedAre(settings, result, share);
  }

  ghost predicate ImagesOfAll(settings: Settings, results: seq<Result>, shares: seq<nat>, images: seq<nat>) {
    && |shares| == |images| == |results|
    && forall i :: 0 <= i < |results| ==> ImagesOf(settings, results[i], shares[i], images[i])
  }

  lemma ShownFirst(
    render: Rendering, settings: Settings, results: seq<Result>, share: nat, shares: seq<nat>, n: nat, images: seq<nat>)
    requires results != [] && ImagesOf(settings, results[0], share, n)
    requires ImagesOfAll(settings, results[1..], shares, images)
    ensures ImagesOfAll(settings, results, [share] + shares, [n] + images)
    ensures Shown(render, settings, results, [share] + shares, [n] + images)
         == ShownOf(render, settings, results[0], share, n) + Shown(render, settings, results[1..], shares, images)
  {
    assert ([share] + shares)[1..] == shares && ([n] + images)[1..] == images;
    forall i | 0 <= i < |results|
      ensures ImagesOf(settings, results[i], ([share] + shares)[i], ([n] + images)[i])
    {
      assert i > 0 ==> ImagesOf(settings, results[1..][i - 1], shares[i - 1], images[i - 1]);
    }
  }

  /** The given numbers of images make up the context. */
  ghost predicate ShownWith(
    render: Rendering, settings: Settings, results: seq<Result>, shares: seq<nat>, images: seq<nat>, context: seq<Item>)
  {
    ImagesOfAll(settings, results, shares, images) && context == Shown(render, settings, results, shares, images)
  }

  lemma ShownWithMore(
    render: Rendering, settings: Settings, results: seq<Result>, share: nat, shares: seq<nat>, images: seq<nat>, context: seq<Item>)
    returns (n: nat)
    requires results != [] && share >= 1 && ShownWith(render, settings, results[1..], shares, images, context)
    ensures ShownWith(render, settings, results, [share] + shares, [n] + images,
                      SharingOf(render, settings).items(results[0], share) + context)
  {
    n := |Selected(settings, results[0], share)|;
    ItemsShown(render, settings, results[0], share);
    ShownFirst(render, settings, results, share, shares, n, images);
  }

  /** The context shows every result within its share, with as many images as that pays for. */
  lemma {:induction false} ContextShows(
    render: Rendering, settings: Settings, sharing: Sharing, results: seq<Result>, remaining: int)
    returns (images: seq<nat>)
    requires sharing == SharingOf(render, settings)
    ensures ShownWith(render, settings, results, Shares(sharing, results, remaining), images, ContextOf(sharing, results, remaining))
    decreases |results|
  {
    images := [];
    if results != [] {
      var share := ItemBudget(remaining, |results|);
      var rest := remaining - sharing.charge(results[0], share);
      images := ContextShows(render, settings, sharing, results[1..], rest);
      var n := ShownWithMore(render, settings, results, share, Shares(sharing, results[1..], rest), images,
                             ContextOf(sharing, results[1..], rest));
      images := [n] + images;
    }
  }

  /** The context of a query: its shares are the greatest even ones, counted after what the earlier results have
      used; and if every result has text, they are even throughout. */
  lemma QueryShares(render: Rendering, settings: Settings, results: seq<Result>, i: nat)
    requires i < |results|
    ensures var sharing := SharingOf(render, settings);
            var share := Shares(sharing, results, settings.budget)[i];
            var left, k := Left(sharing, results, settings.budget, i), |results| - i;
            && (if left < k then share == 1 else share * k <= left < (share + 1) * k)
            && ((forall j :: 0 <= j < |results| ==> results[j].hasTextEvidence) ==>
                  share == (Max(settings.budget, |results|) + i) / |results|)
  {
    SharesGreatest(SharingOf(render, settings), results, settings.budget, i);
    if forall j :: 0 <= j < |results| ==> results[j].hasTextEvidence {
      TextUsesShares(render, settings, results);
      SharesEven(SharingOf(render, settings), results, settings.budget, i);
    }
  }

  // ---------------------------------------------------------------------------------------
  // The query
  // ---------------------------------------------------------------------------------------

  ghost predicate Readable(readable: string -> bool, items: seq<Item>) {
    forall i :: 0 <= i < |items| && items[i].Image? ==> readable(items[i].path)
  }

  /** `items`, followed by the context of the results from `index` on, is all there is. */
  ghost predicate Reached(sharing: Sharing, items: seq<Item>, results: seq<Result>, index: nat, remaining: int, all: seq<Item>) {
    index <= |results| && items + ContextOf(sharing, results[index..], remaining) == all
  }

  /** `readable` says which image files pass inspection; the first that does not ends the query. */
  method Query(render: Rendering, settings: Settings, results: seq<Result>, readable: string -> bool)
    returns (context: Option<seq<Item>>)
    ensures var all := ContextOf(SharingOf(render, settings), results, settings.budget);
            context == if Readable(readable, all) then Some(all) else None
    ensures context.Some? ==>
              exists images :: ShownWith(render, settings, results, Shares(SharingOf(render, settings), results, settings.budget),
                                         images, context.value)
  {
    ghost var sharing := SharingOf(render, settings);
    ghost var all := ContextOf(sharing, results, settings.budget);
    var items := [];
    var remaining: int := settings.budget;
    ContextBegins(sharing, results, remaining);
    for index := 0 to |results|
      invariant Reached(sharing, items, results, index, remaining, all)
      invariant Readable(readable, items)
    {
      var itemBudget := ItemBudget(remaining, |results| - index);
      ghost var contributed := sharing.items(results[index], itemBudget);
      ghost var rest := ContextStep(sharing, items, results, index, remaining, all);
      ghost var before := items;
      var complete, charge := false, 0;
      items, charge, complete := AddItems(render, settings, results[index], itemBudget, readable, items, sharing, contributed);
      if !complete {
        UnreadableStays(readable, before + contributed, rest);
        return None;
      }
      remaining := remaining - charge;
    }
    ContextEnds(sharing, items, results, remaining, all);
    ghost var images := ContextShows(render, settings, sharing, results, settings.budget);
    context := Some(items);
  }

  method AddItems(
    render: Rendering, settings: Settings, result: Result, itemBudget: nat, readable: string -> bool, items: seq<Item>,
    ghost sharing: Sharing, ghost contributed: seq<Item>)
    returns (more: seq<Item>, charge: nat, complete: bool)
    requires sharing == SharingOf(render, settings) && contributed == sharing.items(result, itemBudget)
    requires Readable(readable, items)
    ensures charge == sharing.charge(result, itemBudget)
    ensures complete == Readable(readable, items + contributed)
    ensures complete ==> more == items + contributed
  {
    var selected := Selected(settings, result, itemBudget);
    var textBudget := TextBudget(settings, result, itemBudget);
    charge := |selected| * settings.imageTokens + if result.hasTextEvidence then textBudget else 0;
    more := items;
    if result.hasTextEvidence {
      more := more + [Text(render(result, textBudget))];
    } else {
      Nothing(items);
    }
    Associate(items, TextItems(render, settings, result, itemBudget), Images(selected));
    more, complete := AddImages(selected, readable, more);
  }

  method AddImages(paths: seq<string>, readable: string -> bool, items: seq<Item>)
    returns (more: seq<Item>, complete: bool)
    requires Readable(readable, items)
    ensures complete == Readable(readable, items + Images(paths))
    ensures complete ==> more == items + Images(paths)
  {
    more := items;
    All(paths);
    for i := 0 to |paths|
      invariant more + Images(paths[i..]) == items + Images(paths)
      invariant Readable(readable, more)
    {
      ImagesStep(paths, i, more);
      if !readable(paths[i]) {
        assert (items + Images(paths))[|more|] == Image(paths[i]);
        return more, false;
      }
      more := more + [Image(paths[i])];
    }
    Nothing(more);
    complete := true;
  }

  lemma ImagesStep(paths: seq<string>, i: nat, items: seq<Item>)
    requires i < |paths|
    ensures items + Images(paths[i..]) == items + [Image(paths[i])] + Images(paths[i + 1..])
  {
    assert paths[i..][1..] == paths[i + 1..];
    Associate(items, [Image(paths[i])], Images(paths[i + 1..]));
  }

  lemma UnreadableStays(readable: string -> bool, items: seq<Item>, rest: seq<Item>)
    requires !Readable(readable, items)
    ensures !Readable(readable, items + rest)
  {
    var i :| 0 <= i < |items| && items[i].Image? && !readable(items[i].path);
    assert (items + rest)[i] == items[i];
  }

  lemma ContextBegins(sharing: Sharing, results: seq<Result>, remaining: int)
    ensures Reached(sharing, [], results, 0, remaining, ContextOf(sharing, results, remaining))
  {
    All(results);
    Nothing(ContextOf(sharing, results, remaining));
  }

  lemma ContextEnds(sharing: Sharing, items: seq<Item>, results: seq<Result>, remaining: int, all: seq<Item>)
    requires Reached(sharing, items, results, |results|, remaining, all)
    ensures items == all
  {
    Nothing(items);
  }

  lemma ContextStep(sharing: Sharing, items: seq<Item>, results: seq<Result>, index: nat, remaining: int, all: seq<Item>)
    returns (rest: seq<Item>)
    requires index < |results| && Reached(sharing, items, results, index, remaining, all)
    ensures var itemBudget := ItemBudget(remaining, |results| - index);
            var reached := items + sharing.items(results[index], itemBudget);
            && reached + rest == all
            && Reached(sharing, reached, results, index + 1, remaining - sharing.charge(results[index], itemBudget), all)
  {
    var itemBudget := ItemBudget(remaining, |results| - index);
    assert results[index..][1..] == results[index + 1..];
    rest := ContextOf(sharing, results[index + 1..], remaining - sharing.charge(results[index], itemBudget));
    Associate(items, sharing.items(results[index], itemBudget), rest);
  }

  // ---------------------------------------------------------------------------------------
  // What the context costs its reader
  // ---------------------------------------------------------------------------------------

  /** The cost of the items, for any cost of a text. */
  function Cost(cost: string -> nat, imageTokens: nat, items: seq<Item>): nat {
    if items == [] then 0
    else (if items[0].Text? then cost(items[0].value) else imageTokens) + Cost(cost, imageTokens, items[1..])
  }

  lemma {:induction false} CostConcat(cost: string -> nat, imageTokens: nat, a: seq<Item>, b: seq<Item>)
    ensures Cost(cost, imageTokens, a + b) == Cost(cost, imageTokens, a) + Cost(cost, imageTokens, b)
  {
    if a == [] {
      Nothing(b);
    } else {
      assert (a + b)[1..] == a[1..] + b;
      CostConcat(cost, imageTokens, a[1..], b);
    }
  }

  lemma {:induction false} ImagesCost(cost: string -> nat, imageTokens: nat, paths: seq<string>)
    ensures Cost(cost, imageTokens, Images(paths)) == |paths| * imageTokens
  {
    if paths != [] {
      ImagesCost(cost, imageTokens, paths[1..]);
      assert Images(paths)[1..] == Images(paths[1..]);
    }
  }

  /** What a result contributes costs no more than it is charged. */
  ghost predicate Covered(sharing: Sharing, cost: string -> nat, imageTokens: nat) {
    forall result, budget: nat :: budget >= 1 ==>
      Cost(cost, imageTokens, sharing.items(result, budget)) <= sharing.charge(result, budget)
  }

  lemma {:induction false} ContextWithinCharge(
    sharing: Sharing, cost: string -> nat, imageTokens: nat, results: seq<Result>, remaining: int)
    requires Covered(sharing, cost, imageTokens)
    ensures Cost(cost, imageTokens, ContextOf(sharing, results, remaining)) <= TotalCharge(sharing, results, remaining)
    decreases |results|
  {
    if results != [] {
      var itemBudget := ItemBudget(remaining, |results|);
      var rest := remaining - sharing.charge(results[0], itemBudget);
      ContextWithinCharge(sharing, cost, imageTokens, results[1..], rest);
      CostConcat(cost, imageTokens, sharing.items(results[0], itemBudget), ContextOf(sharing, results[1..], rest));
    }
  }

  /** A rendered text costs no more than the tokens it is given. */
  ghost predicate Frugal(render: Rendering, cost: string -> nat) {
    forall result: Result, tokens: nat :: tokens >= 1 ==> cost(render(result, tokens)) <= tokens
  }

  lemma SharingCovers(render: Rendering, cost: string -> nat, settings: Settings)
    requires Frugal(render, cost)
    ensures Covered(SharingOf(render, settings), cost, settings.imageTokens)
  {
    forall result, budget: nat | budget >= 1
      ensures Cost(cost, settings.imageTokens, SharingOf(render, settings).items(result, budget))
           <= Charge(settings, result, budget)
    {
      var text, paths := TextItems(render, settings, result, budget), Selected(settings, result, budget);
      ImagesCost(cost, settings.imageTokens, paths);
      CostConcat(cost, settings.imageTokens, text, Images(paths));
    }
  }

  /** The text of a result carries its label, its identifier, its snippet and its text, whole if they fit into the
      tokens that are given. */
  lemma EvidenceShown(u: Unicode, result: Result, tokens: nat)
    requires tokens >= 1
    ensures var whole := "[ARCHIVED HISTORICAL EVIDENCE]\n" + "Source: " + result.id + "\nMatched excerpt: " + result.snippet
                         + "\nSource text:\n" + result.text;
            var shown := CappedEvidence(u)(result, tokens);
            if Estimate(u, whole) <= tokens then shown == whole else Cut(u, whole, tokens, TRUNCATION_MARKER, shown)
  {
    CapForm(u, EvidenceText(result), tokens, TRUNCATION_MARKER);
  }

  lemma CappedEvidenceFrugal(u: Unicode)
    ensures Frugal(CappedEvidence(u), (text: string) => Estimate(u, text))
  {
    forall result: Result, tokens: nat | tokens >= 1
      ensures Estimate(u, CappedEvidence(u)(result, tokens)) <= tokens
    {
      CapFits(u, EvidenceText(result), TokenBudget(Finite(tokens as real)), TRUNCATION_MARKER);
    }
  }

  /** The whole context, as its reader counts tokens, costs no more than its budget, or one token a result
      if the budget is smaller than that. */
  lemma ContextWithinBudget(u: Unicode, settings: Settings, results: seq<Result>)
    ensures var context := ContextOf(SharingOf(CappedEvidence(u), settings), results, settings.budget);
            Cost((text: string) => Estimate(u, text), settings.imageTokens, context) <= Max(settings.budget, |results|)
  {
    var cost := (text: string) => Estimate(u, text);
    CappedEvidenceFrugal(u);
    SharingCovers(CappedEvidence(u), cost, settings);
    ContextWithinCharge(SharingOf(CappedEvidence(u), settings), cost, settings.imageTokens, results, settings.budget);
    ChargesBounded(CappedEvidence(u), settings, results);
  }
}

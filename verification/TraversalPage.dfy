/** The traversal page of `src/presentation.js` and what the adapter reads back from it. */
module TraversalPage {
  import opened Wrappers
  import opened Sequences
  import opened Decimals
  import opened TokenEstimate
  import opened Json
  import opened Presentation
  import opened PagePatterns
  import opened WhiteSpace

  // ---------------------------------------------------------------------------------------
  // Records
  // ---------------------------------------------------------------------------------------

  /** A traversed result: its exposed handle and its snippet or, without one, its text. */
  datatype Traversed = Traversed(id: string, text: string)

  const OPEN_ID := ['{', '"', 'i', 'd', '"', ':', '"']
  const OPEN_SNIPPET := ['"', ',', '"', 's', 'n', 'i', 'p', 'p', 'e', 't', '"', ':', '"']
  const CLOSE := ['"', '}']
  const SNIPPET_LENGTH := 72

  /** Every run of white space becomes one blank. */
  function Collapse(text: string, inRun: bool): string {
    if text == [] then []
    else if !IsSpace(text[0]) then [text[0]] + Collapse(text[1..], false)
    else if inRun then Collapse(text[1..], true)
    else [' '] + Collapse(text[1..], true)
  }

  function Snippet(text: string): string {
    Collapse(if |text| <= SNIPPET_LENGTH then text else text[..SNIPPET_LENGTH], false)
  }

  /** `oneLineJson({ id, snippet })` */
  function RecordText(id: string, snippet: string): string {
    OPEN_ID + Escape(true, id) + OPEN_SNIPPET + Escape(true, snippet) + CLOSE
  }

  /** A snippet holds no white space but single blanks, and nothing is lost but white space. */
  ghost predicate Collapsed(text: string) {
    && (forall i :: 0 <= i < |text| && IsSpace(text[i]) ==> text[i] == ' ')
    && (forall i :: 0 <= i < |text| - 1 ==> !(IsSpace(text[i]) && IsSpace(text[i + 1])))
  }

  ghost function Visible(text: string): string {
    if text == [] then []
    else if IsSpace(text[0]) then Visible(text[1..])
    else [text[0]] + Visible(text[1..])
  }

  lemma {:induction false} CollapseShape(text: string, inRun: bool)
    ensures Collapsed(Collapse(text, inRun)) && |Collapse(text, inRun)| <= |text|
    ensures inRun ==> Collapse(text, inRun) == [] || !IsSpace(Collapse(text, inRun)[0])
    ensures Visible(Collapse(text, inRun)) == Visible(text)
  {
    if text != [] {
      CollapseShape(text[1..], IsSpace(text[0]));
    }
  }

  /** Text without white space stays as it is. */
  lemma {:induction false} WordCollapses(text: string, inRun: bool)
    requires forall i :: 0 <= i < |text| ==> !IsSpace(text[i])
    ensures Collapse(text, inRun) == text
  {
    if text != [] {
      WordCollapses(text[1..], false);
      Whole(text, 1);
    }
  }

  lemma {:induction false} SpaceCollapses(space: string, rest: string)
    requires AllSpace(space)
    ensures Collapse(space + rest, true) == Collapse(rest, true)
  {
    if space == [] {
      Nothing(rest);
    } else {
      assert (space + rest)[1..] == space[1..] + rest;
      SpaceCollapses(space[1..], rest);
    }
  }

  lemma StartsWithWord(text: string, inRun: bool)
    requires text == [] || !IsSpace(text[0])
    ensures Collapse(text, inRun) == Collapse(text, false)
  {
  }

  /** A run of white space becomes one blank, wherever it stands. */
  lemma {:induction false} RunCollapses(front: string, space: string, rest: string, inRun: bool)
    requires space != [] && AllSpace(space)
    requires if front == [] then !inRun else !IsSpace(front[|front| - 1])
    requires rest == [] || !IsSpace(rest[0])
    ensures Collapse(front + (space + rest), inRun) == Collapse(front, inRun) + ([' '] + Collapse(rest, false))
    decreases |front|
  {
    if front == [] {
      Nothing(space + rest);
      Nothing([' '] + Collapse(rest, false));
      assert (space + rest)[1..] == space[1..] + rest;
      SpaceCollapses(space[1..], rest);
      StartsWithWord(rest, true);
    } else {
      assert (front + (space + rest))[1..] == front[1..] + (space + rest);
      if |front| == 1 {
        RunCollapses([], space, rest, false);
        assert front[1..] == [];
      } else {
        RunCollapses(front[1..], space, rest, IsSpace(front[0]));
        Associate([front[0]], Collapse(front[1..], false), [' '] + Collapse(rest, false));
        Associate([' '], Collapse(front[1..], true), [' '] + Collapse(rest, false));
      }
    }
  }

  function LineOf(result: Traversed): Line {
    Line(result.id, RecordText(result.id, Snippet(result.text)))
  }

  function LinesOf(results: seq<Traversed>): (lines: seq<Line>)
    ensures |lines| == |results|
    ensures forall i :: 0 <= i < |results| ==> lines[i] == LineOf(results[i])
  {
    seq(|results|, i requires 0 <= i < |results| => LineOf(results[i]))
  }

  predicate Plain(c: char) {
    '0' <= c <= '9' || 'a' <= c <= 'z' || 'A' <= c <= 'Z'
  }

  /** Handles are made of letters and digits, so escaping leaves them alone. */
  predicate PlainId(id: string) {
    id != [] && forall i :: 0 <= i < |id| ==> Plain(id[i])
  }

  lemma {:induction false} PlainEscape(oneLine: bool, id: string)
    requires forall i :: 0 <= i < |id| ==> Plain(id[i])
    ensures Escape(oneLine, id) == id
  {
    if id != [] {
      PlainEscape(oneLine, id[1..]);
      Whole(id, 1);
    }
  }

  /** Where the parts of a record lie. */
  lemma PartChars(a: string, id: string, c: string, snippet: string, e: string, text: string)
    requires |a| == 7 && |c| == 13 && |e| == 2
    requires text == a + id + c + snippet + e
    ensures |text| == |id| + |snippet| + 22
    ensures forall i :: 0 <= i < 7 ==> text[i] == a[i]
    ensures forall i :: 7 <= i < 7 + |id| ==> text[i] == id[i - 7]
    ensures forall i :: 7 + |id| <= i < 20 + |id| ==> text[i] == c[i - 7 - |id|]
    ensures forall i :: 20 + |id| <= i < 20 + |id| + |snippet| ==> text[i] == snippet[i - 20 - |id|]
    ensures text[20 + |id| + |snippet|] == e[0] && text[21 + |id| + |snippet|] == e[1]
  {
  }

  ghost predicate RecordShape(text: string, id: string, snippet: string) {
    && |text| == |id| + |snippet| + 22
    && (forall i :: 0 <= i < 7 ==> text[i] == OPEN_ID[i])
    && (forall i :: 7 <= i < 7 + |id| ==> text[i] == id[i - 7])
    && (forall i :: 7 + |id| <= i < 20 + |id| ==> text[i] == OPEN_SNIPPET[i - 7 - |id|])
    && (forall i :: 20 + |id| <= i < 20 + |id| + |snippet| ==> text[i] == snippet[i - 20 - |id|])
    && text[20 + |id| + |snippet|] == '"' && text[21 + |id| + |snippet|] == '}'
  }

  lemma RecordChars(id: string, snippet: string)
    ensures RecordShape(RecordText(id, snippet), Escape(true, id), Escape(true, snippet))
  {
    PartChars(OPEN_ID, Escape(true, id), OPEN_SNIPPET, Escape(true, snippet), CLOSE, RecordText(id, snippet));
  }

  /** Every quote of a record is escaped or one of the eight that structure it. */
  lemma RecordQuote(text: string, id: string, snippet: string, d: nat)
    requires RecordShape(text, id, snippet) && QuotesEscaped(id) && QuotesEscaped(snippet)
    requires d < |text| && text[d] == '"'
    ensures 0 < d < |text| - 1
    ensures text[d - 1] == '\\'
            || d in {1, 4, 6, 7 + |id|, 9 + |id|, 17 + |id|, 19 + |id|, 20 + |id| + |snippet|}
  {
    if 7 <= d < 7 + |id| {
      assert id[d - 7] == '"';
    } else if 20 + |id| <= d < 20 + |id| + |snippet| {
      assert snippet[d - 20 - |id|] == '"';
    }
  }

  /** Whatever the snippet says, a record has no direction quote, and one key quote. */
  lemma ShapeQuotes(text: string, id: string, snippet: string, d: nat)
    requires RecordShape(text, id, snippet) && QuotesEscaped(id) && QuotesEscaped(snippet)
    ensures !DirectionQuote(text, d)
    ensures KeyQuote(text, d) ==> d == 4
  {
    if d < |text| && text[d] == '"' {
      RecordQuote(text, id, snippet, d);
    }
  }

  lemma ShapeQuiet(text: string, id: string, snippet: string)
    requires RecordShape(text, id, snippet) && QuotesEscaped(id) && QuotesEscaped(snippet)
    ensures Quiet(text)
  {
    forall d: nat
      ensures !DirectionQuote(text, d) && (KeyQuote(text, d) ==> d == 4)
    {
      ShapeQuotes(text, id, snippet, d);
    }
  }

  lemma ShapeOpens(text: string, id: string, snippet: string)
    requires RecordShape(text, id, snippet) && id != [] && NoQuote(id)
    ensures Opens(Line(id, text))
  {
    assert forall k :: 0 <= k < 6 ==> text[1 + k] == OPEN_ID[1 + k] == ID_KEY[k];
    assert text[7 + |id|] == OPEN_SNIPPET[0];
  }

  /** The record of a result with a plain handle offers its handle and nothing else to the patterns,
      whatever its text says. */
  lemma RecordRegular(result: Traversed)
    requires PlainId(result.id)
    ensures Regular(LineOf(result))
  {
    var snippet := Snippet(result.text);
    PlainEscape(true, result.id);
    RecordChars(result.id, snippet);
    EscapedQuotes(true, result.id);
    EscapedQuotes(true, snippet);
    ShapeQuiet(RecordText(result.id, snippet), result.id, Escape(true, snippet));
    ShapeOpens(RecordText(result.id, snippet), result.id, Escape(true, snippet));
  }

  /** A record is on one line, whatever its identifier and its snippet say. */
  lemma RecordSingleLine(id: string, snippet: string)
    ensures SingleLine(RecordText(id, snippet))
  {
    EscapedSingleLine(id);
    EscapedSingleLine(snippet);
    SingleLineConcat(OPEN_ID, Escape(true, id));
    SingleLineConcat(OPEN_ID + Escape(true, id), OPEN_SNIPPET);
    SingleLineConcat(OPEN_ID + Escape(true, id) + OPEN_SNIPPET, Escape(true, snippet));
    SingleLineConcat(OPEN_ID + Escape(true, id) + OPEN_SNIPPET + Escape(true, snippet), CLOSE);
  }

  ghost predicate PlainIds(results: seq<Traversed>) {
    forall i :: 0 <= i < |results| ==> PlainId(results[i].id)
  }

  lemma LinesRegular(results: seq<Traversed>, n: nat)
    requires PlainIds(results) && n <= |results|
    ensures AllRegular(LinesOf(results)[..n])
  {
    forall i | 0 <= i < n
      ensures Regular(LinesOf(results)[..n][i])
    {
      RecordRegular(results[i]);
    }
  }

  // ---------------------------------------------------------------------------------------
  // The page
  // ---------------------------------------------------------------------------------------

  /** What the traversal reports beside its results. */
  datatype Details = Details(
    direction: Option<Direction>,
    status: Option<string>,
    scanned: Option<nat>,
    truncated: bool,
    hasMore: bool)

  const HEADING := "[Archived historical evidence " + "— may be stale about current " + "mutable state; "
                   + "verify live state separately.]"

  function DirectionOf(details: Details): Direction {
    if details.direction.Some? then details.direction.value else Before
  }

  function DirectionText(direction: Direction): string {
    if direction.Before? then "before" else "after"
  }

  function StatusOf(details: Details, count: nat): string {
    if details.status.Some? then details.status.value else if count > 0 then "resolved" else "not-found"
  }

  function StatusLine(details: Details, count: nat): string {
    "Chronological traversal: " + DirectionText(DirectionOf(details)) + " — " + StatusOf(details, count) + ". "
    + Decimal(if details.scanned.Some? then details.scanned.value else 0)
    + " archive reference(s) scanned" + (if details.truncated then "; scan bound reached" else []) + "."
  }

  function Preamble(details: Details, count: nat): string {
    HEADING + "\n\n" + StatusLine(details, count)
  }

  function HasMore(details: Details, shown: nat, count: nat): bool {
    details.hasMore || shown < count
  }

  /** The paging line up to the continuation, if there is one. */
  function PagingFront(details: Details, shown: nat, count: nat): string {
    if HasMore(details, shown, count) then
      "Displayed " + Decimal(shown) + "/" + Decimal(count)
      + " nearest-first result(s). " + "If the event is not visible, "
    else
      "Displayed all " + Decimal(shown) + " nearest-first result(s); " + "chronology is exhausted " + "in this direction."
  }

  /** The continuation: the fixed text with both arguments as JSON strings. */
  function ContinuationText(id: string, direction: Direction): string {
    CONTINUE + (Escape(false, id) + (DIRECTION + (if direction.Before? then BEFORE else AFTER)))
  }

  /** All of a page that stands before its records. */
  function PageHead(details: Details, boundary: string, shown: nat, count: nat): string {
    var front := Preamble(details, count) + "\n" + PagingFront(details, shown, count);
    if HasMore(details, shown, count) then front + (ContinuationText(boundary, DirectionOf(details)) + ".\n\n")
    else front + "\n\n"
  }

  /** The page that shows the first `n` lines. */
  function Page(details: Details, lines: seq<Line>, n: nat): string
    requires 0 < n <= |lines|
  {
    PageHead(details, lines[n - 1].id, n, |lines|) + LinesText(lines[..n])
  }

  function CostOf(u: Unicode): string -> nat {
    (text: string) => Estimate(u, text)
  }

  /** Whether the page with the first `n` lines stays within the budget. */
  function PageFits(cost: string -> nat, details: Details, lines: seq<Line>, maxTokens: nat): nat -> bool {
    (n: nat) => 0 < n <= |lines| && cost(Page(details, lines, n)) <= maxTokens
  }

  /** How far a list is shown, when `k` of its `count` entries already are. */
  function GreedyFrom(fits: nat -> bool, k: nat, count: nat): (n: nat)
    requires k <= count
    ensures k <= n <= count
    ensures n == k || fits(n)
    decreases count - k
  {
    if k == count || !fits(k + 1) then k else GreedyFrom(fits, k + 1, count)
  }

  function Shown(u: Unicode, details: Details, results: seq<Traversed>, tokenLimit: Numeric): (n: nat)
    ensures n <= |results|
  {
    GreedyFrom(PageFits(CostOf(u), details, LinesOf(results), TokenBudget(tokenLimit)), 0, |results|)
  }

  const NOTHING_FOUND := "\n\nNo archived context " + "in that direction."

  function TraversalText(u: Unicode, details: Details, results: seq<Traversed>, tokenLimit: Numeric): string {
    var n := Shown(u, details, results, tokenLimit);
    if results == [] then CapText(u, Preamble(details, 0) + NOTHING_FOUND, tokenLimit)
    else if n > 0 then Page(details, LinesOf(results), n)
    else CapText(u, Preamble(details, |results|), tokenLimit)
  }

  method FormatTraversalResults(u: Unicode, details: Details, results: seq<Traversed>, tokenLimit: Numeric)
    returns (text: string)
    ensures text == TraversalText(u, details, results, tokenLimit)
    ensures Estimate(u, text) <= TokenBudget(tokenLimit)
  {
    TraversalTextFits(u, details, results, tokenLimit);
    if results == [] {
      return CapText(u, Preamble(details, 0) + NOTHING_FOUND, tokenLimit);
    }
    var shown, output := ShowLines(CostOf(u), details, LinesOf(results), TokenBudget(tokenLimit));
    if shown > 0 {
      return output;
    }
    return CapText(u, Preamble(details, |results|), tokenLimit);
  }

  method ShowLines(cost: string -> nat, details: Details, lines: seq<Line>, maxTokens: nat)
    returns (shown: nat, output: string)
    ensures shown == GreedyFrom(PageFits(cost, details, lines, maxTokens), 0, |lines|)
    ensures shown > 0 ==> output == Page(details, lines, shown)
  {
    ghost var fits := PageFits(cost, details, lines, maxTokens);
    shown, output := 0, [];
    while shown < |lines|
      invariant shown <= |lines|
      invariant GreedyFrom(fits, 0, |lines|) == GreedyFrom(fits, shown, |lines|)
      invariant shown > 0 ==> output == Page(details, lines, shown)
    {
      var rendered := Page(details, lines, shown + 1);
      if cost(rendered) > maxTokens {
        break;
      }
      shown, output := shown + 1, rendered;
    }
  }

  lemma ShownPageFits(cost: string -> nat, details: Details, lines: seq<Line>, maxTokens: nat)
    ensures var n := GreedyFrom(PageFits(cost, details, lines, maxTokens), 0, |lines|);
            n > 0 ==> cost(Page(details, lines, n)) <= maxTokens
  {
  }

  /** On every path the page stays within its budget. */
  lemma TraversalTextFits(u: Unicode, details: Details, results: seq<Traversed>, tokenLimit: Numeric)
    ensures Estimate(u, TraversalText(u, details, results, tokenLimit)) <= TokenBudget(tokenLimit)
  {
    CapTextFits(u, Preamble(details, 0) + NOTHING_FOUND, tokenLimit);
    CapTextFits(u, Preamble(details, |results|), tokenLimit);
    ShownPageFits(CostOf(u), details, LinesOf(results), TokenBudget(tokenLimit));
  }

  // ---------------------------------------------------------------------------------------
  // Text without quotes
  // ---------------------------------------------------------------------------------------

  lemma NoQuotes3(a: string, b: string, c: string)
    requires NoQuote(a) && NoQuote(b) && NoQuote(c)
    ensures NoQuote(a + b + c)
  {
  }

  lemma NoQuotes4(a: string, b: string, c: string, d: string)
    requires NoQuote(a) && NoQuote(b) && NoQuote(c) && NoQuote(d)
    ensures NoQuote(a + b + c + d)
  {
    NoQuotes3(a, b, c);
    NoQuoteConcat(a + b + c, d);
  }

  lemma HeadingNoQuote()
    ensures NoQuote(HEADING)
  {
    NoQuotes4("[Archived historical evidence ", "— may be stale about current ", "mutable state; ",
              "verify live state separately.]");
  }

  lemma DecimalNoQuote(n: nat)
    ensures NoQuote(Decimal(n))
  {
    forall i | 0 <= i < |Decimal(n)|
      ensures Decimal(n)[i] != '"'
    {
      assert Decimal(n)[i] in Decimal(n);
    }
  }

  /** The texts the session reports contain no quotes. */
  ghost predicate PlainStatus(details: Details) {
    details.status.Some? ==> NoQuote(details.status.value)
  }

  lemma StatusLiterals()
    ensures NoQuote("Chronological traversal: ") && NoQuote(" — ") && NoQuote(". ") && NoQuote(".")
    ensures NoQuote(" archive reference(s) scanned") && NoQuote("; scan bound reached")
    ensures NoQuote("before") && NoQuote("after") && NoQuote("resolved") && NoQuote("not-found")
  {
  }

  lemma StatusNoQuote(details: Details, count: nat)
    requires PlainStatus(details)
    ensures NoQuote(StatusLine(details, count))
  {
    var scanned := Decimal(if details.scanned.Some? then details.scanned.value else 0);
    var bound := if details.truncated then "; scan bound reached" else [];
    DecimalNoQuote(if details.scanned.Some? then details.scanned.value else 0);
    StatusLiterals();
    StatusParts("Chronological traversal: ", DirectionText(DirectionOf(details)), " — ", StatusOf(details, count),
                ". ", scanned, " archive reference(s) scanned", bound, ".");
  }

  lemma StatusParts(a: string, b: string, c: string, d: string, e: string, f: string, g: string, h: string, i: string)
    requires NoQuote(a) && NoQuote(b) && NoQuote(c) && NoQuote(d) && NoQuote(e) && NoQuote(f) && NoQuote(g) && NoQuote(h) && NoQuote(i)
    ensures NoQuote(a + b + c + d + e + f + g + h + i)
  {
    NoQuotes4(a, b, c, d);
    NoQuotes4(a + b + c + d, e, f, g);
    NoQuotes3(a + b + c + d + e + f + g, h, i);
  }

  lemma PreambleNoQuote(details: Details, count: nat)
    requires PlainStatus(details)
    ensures NoQuote(Preamble(details, count))
  {
    HeadingNoQuote();
    StatusNoQuote(details, count);
    NoQuotes3(HEADING, "\n\n", StatusLine(details, count));
  }

  lemma PagingNoQuote(details: Details, shown: nat, count: nat)
    ensures NoQuote(PagingFront(details, shown, count))
  {
    DecimalNoQuote(shown);
    DecimalNoQuote(count);
    if HasMore(details, shown, count) {
      NoQuotes4("Displayed ", Decimal(shown), "/", Decimal(count));
      NoQuotes3("Displayed " + Decimal(shown) + "/" + Decimal(count),
                " nearest-first result(s). ", "If the event is not visible, ");
    } else {
      NoQuotes3("Displayed all ", Decimal(shown), " nearest-first result(s); ");
      NoQuotes3("Displayed all " + Decimal(shown) + " nearest-first result(s); ",
                "chronology is exhausted ", "in this direction.");
    }
  }

  lemma FrontNoQuote(details: Details, shown: nat, count: nat)
    requires PlainStatus(details)
    ensures NoQuote(Preamble(details, count) + "\n" + PagingFront(details, shown, count))
  {
    PreambleNoQuote(details, count);
    PagingNoQuote(details, shown, count);
    NoQuotes3(Preamble(details, count), "\n", PagingFront(details, shown, count));
  }

  lemma PrefixNoQuote(text: string, prefix: string)
    requires NoQuote(text) && prefix <= text
    ensures NoQuote(prefix)
  {
  }

  lemma MarkerNoQuote()
    ensures NoQuote(['\n'] + TRUNCATION_MARKER) && NoQuote(ELLIPSIS)
  {
    assert NoQuote("[… retrieval truncated …]");
    NoQuoteConcat(['\n'], TRUNCATION_MARKER);
  }

  lemma VisibleNoQuote(u: Unicode, text: string, max: nat, suffix: string)
    requires NoQuote(text) && NoQuote(suffix) && Estimate(u, suffix) <= max
    ensures NoQuote(VisiblePrefix(u, text, max, suffix)) && NoQuote(VisiblePrefix(u, text, max, suffix) + suffix)
  {
    VisiblePrefixFits(u, text, max, suffix);
    PrefixNoQuote(text, VisiblePrefix(u, text, max, suffix));
    NoQuoteConcat(VisiblePrefix(u, text, max, suffix), suffix);
  }

  /** Capping adds no quotes. */
  lemma CapNoQuote(u: Unicode, text: string, tokens: Numeric)
    requires NoQuote(text)
    ensures NoQuote(CapText(u, text, tokens))
  {
    CapCharactersNoQuote(u, text, TokenBudget(tokens), TRUNCATION_MARKER);
  }

  lemma CapCharactersNoQuote(u: Unicode, text: string, max: nat, marker: string)
    requires NoQuote(text) && marker == TRUNCATION_MARKER
    ensures NoQuote(CapCharacters(u, text, max, marker))
  {
    MarkerNoQuote();
    if Estimate(u, ['\n'] + marker) <= max {
      VisibleNoQuote(u, text, max, ['\n'] + marker);
    }
    if Estimate(u, ELLIPSIS) <= max {
      VisibleNoQuote(u, text, max, ELLIPSIS);
    }
    VisibleNoQuote(u, Repeat('.', max), max, []);
  }

  // ---------------------------------------------------------------------------------------
  // Reading the page back
  // ---------------------------------------------------------------------------------------

  lemma StandsWhole(text: string)
    ensures StandsAt(text, text, 0)
  {
  }

  lemma ContinuationFound(front: string, id: string, direction: Direction, end: string, rest: string)
    requires NoQuote(front) && NoQuote(id) && id != []
    requires end == if direction.Before? then BEFORE else AFTER
    ensures Exec(front + ((CONTINUE + (id + (DIRECTION + end))) + rest)) == Some(Continuation(id, direction))
  {
    SixParts(front, CONTINUE, id, DIRECTION, end, rest);
    PageContinues(front + ((CONTINUE + (id + (DIRECTION + end))) + rest), front, id, direction);
  }

  lemma PlainNoQuote(id: string)
    requires PlainId(id)
    ensures NoQuote(id) && Escape(false, id) == id
  {
    PlainEscape(false, id);
  }

  lemma ContinuationReads(front: string, id: string, direction: Direction, rest: string)
    requires NoQuote(front) && PlainId(id)
    ensures Exec(front + (ContinuationText(id, direction) + rest)) == Some(Continuation(id, direction))
  {
    PlainNoQuote(id);
    ContinuationFound(front, id, direction, if direction.Before? then BEFORE else AFTER, rest);
  }

  lemma SixParts(front: string, a: string, b: string, c: string, d: string, rest: string)
    ensures var text := front + ((a + (b + (c + d))) + rest);
            StandsAt(text, front, 0) && FourStand(text, |front|, a, b, c, d)
  {
    var text := front + ((a + (b + (c + d))) + rest);
    StandsWhole(text);
    StandsParts(text, front, (a + (b + (c + d))) + rest, 0);
    StandsParts(text, a + (b + (c + d)), rest, |front|);
    StandsParts(text, a, b + (c + d), |front|);
    StandsParts(text, b, c + d, |front| + |a|);
    StandsParts(text, c, d, |front| + |a| + |b|);
  }

  lemma PiecesCalm()
    ensures Calm(CONTINUE) && Calm(DIRECTION) && Calm(BEFORE) && Calm(AFTER) && Calm(".\n\n") && Calm("\n\n")
  {
    ContinueQuotes();
  }

  lemma ContinuationCalm(id: string, direction: Direction)
    requires PlainId(id)
    ensures Calm(ContinuationText(id, direction))
  {
    var end := if direction.Before? then BEFORE else AFTER;
    PlainEscape(false, id);
    PiecesCalm();
    CalmNoQuote(id);
    CalmConcat(DIRECTION, end);
    CalmConcat(id, DIRECTION + end);
    CalmConcat(CONTINUE, id + (DIRECTION + end));
  }

  lemma FrontOpens(details: Details, shown: nat, count: nat)
    ensures var front := Preamble(details, count) + "\n" + PagingFront(details, shown, count);
            front != [] && front[0] == '['
  {
    assert HEADING[0] == "[Archived historical evidence "[0];
  }

  /** What stands before the records is a heading. */
  lemma HeadIsHeading(details: Details, boundary: string, shown: nat, count: nat)
    requires PlainStatus(details) && PlainId(boundary)
    ensures Heading(PageHead(details, boundary, shown, count))
  {
    var front := Preamble(details, count) + "\n" + PagingFront(details, shown, count);
    FrontNoQuote(details, shown, count);
    FrontOpens(details, shown, count);
    CalmNoQuote(front);
    PiecesCalm();
    if HasMore(details, shown, count) {
      ContinuationCalm(boundary, DirectionOf(details));
      CalmConcat(ContinuationText(boundary, DirectionOf(details)), ".\n\n");
      CalmConcat(front, ContinuationText(boundary, DirectionOf(details)) + ".\n\n");
    } else {
      CalmConcat(front, "\n\n");
    }
    CalmHeading(PageHead(details, boundary, shown, count));
  }

  /** The handles of the first `n` results. */
  function Handles(results: seq<Traversed>, n: nat): seq<string>
    requires n <= |results|
  {
    seq(n, i requires 0 <= i < n => results[i].id)
  }

  lemma {:induction false} IdsOfPrefix(results: seq<Traversed>, n: nat)
    requires n <= |results|
    ensures IdsOf(LinesOf(results)[..n]) == Handles(results, n)
    decreases n
  {
    if n > 0 {
      IdsOfPrefix(results[1..], n - 1);
      var lines := LinesOf(results)[..n];
      assert lines[1..] == LinesOf(results[1..])[..n - 1];
    }
  }

  lemma LinesName(head: string, results: seq<Traversed>, n: nat)
    requires PlainIds(results) && Heading(head)
    requires 0 < n <= |results|
    ensures Ids(head + LinesText(LinesOf(results)[..n])) == Handles(results, n)
  {
    LinesRegular(results, n);
    PageIds(head, LinesOf(results)[..n]);
    IdsOfPrefix(results, n);
  }

  /** A page that shows `n` results names exactly these, in order. */
  lemma PageNames(details: Details, results: seq<Traversed>, n: nat)
    requires PlainIds(results) && PlainStatus(details)
    requires 0 < n <= |results|
    ensures Ids(Page(details, LinesOf(results), n)) == Handles(results, n)
  {
    HeadIsHeading(details, results[n - 1].id, n, |results|);
    LinesName(PageHead(details, results[n - 1].id, n, |results|), results, n);
  }

  /** It continues at the last of them if there is more, and not at all otherwise. */
  lemma PageGoesOn(details: Details, results: seq<Traversed>, n: nat)
    requires PlainIds(results) && PlainStatus(details)
    requires 0 < n <= |results|
    ensures Exec(Page(details, LinesOf(results), n))
         == if HasMore(details, n, |results|) then Some(Continuation(results[n - 1].id, DirectionOf(details))) else None
  {
    var id := results[n - 1].id;
    var text := LinesText(LinesOf(results)[..n]);
    var front := Preamble(details, |results|) + "\n" + PagingFront(details, n, |results|);
    FrontNoQuote(details, n, |results|);
    if HasMore(details, n, |results|) {
      Associate(front, ContinuationText(id, DirectionOf(details)) + ".\n\n", text);
      Associate(ContinuationText(id, DirectionOf(details)), ".\n\n", text);
      ContinuationReads(front, id, DirectionOf(details), ".\n\n" + text);
    } else {
      LinesRegular(results, n);
      LinesQuotes(LinesOf(results)[..n]);
      NoQuoteConcat(front, "\n\n");
      OpenEndsConcat(front + "\n\n", text);
      PageEnds(front + "\n\n" + text);
    }
  }

  lemma PageReadBack(u: Unicode, details: Details, results: seq<Traversed>, tokenLimit: Numeric)
    requires PlainIds(results) && PlainStatus(details)
    ensures var text, n := TraversalText(u, details, results, tokenLimit), Shown(u, details, results, tokenLimit);
            && Ids(text) == Handles(results, n)
            && Exec(text) == if n > 0 && HasMore(details, n, |results|)
                             then Some(Continuation(results[n - 1].id, DirectionOf(details))) else None
  {
    var n := Shown(u, details, results, tokenLimit);
    if n > 0 {
      PageNames(details, results, n);
      PageGoesOn(details, results, n);
    } else if results == [] {
      NothingFoundRead(u, details, tokenLimit);
    } else {
      PreambleNoQuote(details, |results|);
      CapNoQuote(u, Preamble(details, |results|), tokenLimit);
      NothingRead(TraversalText(u, details, results, tokenLimit));
    }
  }

  /** The round trip: from the printed text the adapter's patterns recover exactly the displayed
      handles and, if and only if something is displayed and more remains, the last displayed handle
      and the direction. */
  lemma TraversalRoundTrip(u: Unicode, details: Details, results: seq<Traversed>, tokenLimit: Numeric)
    requires PlainIds(results) && PlainStatus(details)
    ensures var text, n := TraversalText(u, details, results, tokenLimit), Shown(u, details, results, tokenLimit);
            Ids(text) == Handles(results, n) && Exec(text) == Continued(details, results, n)
  {
    PageReadBack(u, details, results, tokenLimit);
    ContinuedIs(details, results, Shown(u, details, results, tokenLimit));
  }

  /** What the first `n` results leave to continue: the last of them, in the direction asked for, backwards if
      none was, as long as the archive or the page has more. */
  function Continued(details: Details, results: seq<Traversed>, n: nat): Option<Continuation>
    requires n <= |results|
  {
    if n > 0 && (details.hasMore || n < |results|) then
      Some(Continuation(results[n - 1].id, if details.direction == Some(After) then After else Before))
    else None
  }

  lemma ContinuedIs(details: Details, results: seq<Traversed>, n: nat)
    requires n <= |results|
    ensures Continued(details, results, n)
         == if n > 0 && HasMore(details, n, |results|)
            then Some(Continuation(results[n - 1].id, DirectionOf(details))) else None
  {
    assert details.direction.Some? ==> details.direction.value.Before? || details.direction.value.After?;
  }

  lemma NothingFoundRead(u: Unicode, details: Details, tokenLimit: Numeric)
    requires PlainStatus(details)
    ensures var text := CapText(u, Preamble(details, 0) + NOTHING_FOUND, tokenLimit); Exec(text) == None && Ids(text) == []
  {
    PreambleNoQuote(details, 0);
    assert NoQuote("\n\nNo archived context ") && NoQuote("in that direction.");
    NoQuoteConcat("\n\nNo archived context ", "in that direction.");
    NoQuoteConcat(Preamble(details, 0), NOTHING_FOUND);
    CapNoQuote(u, Preamble(details, 0) + NOTHING_FOUND, tokenLimit);
    NothingRead(CapText(u, Preamble(details, 0) + NOTHING_FOUND, tokenLimit));
  }

  /** The entries after `k` up to `n` fit one after the other, and the next, if there is one, does not. */
  ghost predicate Greedy(fits: nat -> bool, k: nat, n: nat, count: nat) {
    (forall m: nat :: k < m <= n ==> fits(m)) && (n < count ==> !fits(n + 1))
  }

  lemma {:induction false} GreedyStops(fits: nat -> bool, k: nat, count: nat)
    requires k <= count
    ensures Greedy(fits, k, GreedyFrom(fits, k, count), count)
    decreases count - k
  {
    if k < count && fits(k + 1) {
      GreedyStops(fits, k + 1, count);
    }
  }

  /** The page is cut only where one more line would not fit. */
  lemma ShownGreedy(u: Unicode, details: Details, results: seq<Traversed>, tokenLimit: Numeric)
    ensures Greedy(PageFits(CostOf(u), details, LinesOf(results), TokenBudget(tokenLimit)), 0,
                   Shown(u, details, results, tokenLimit), |results|)
  {
    GreedyStops(PageFits(CostOf(u), details, LinesOf(results), TokenBudget(tokenLimit)), 0, |results|);
  }
}

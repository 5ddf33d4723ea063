/** Budgeted rendering of `src/presentation.js`: capped text and search results. */
module Presentation {
  import opened Wrappers
  import opened Decimals
  import opened Scanner
  import opened TokenEstimate
  import opened Json
  import opened RecordList
  import opened Sequences

  const TRUNCATION_MARKER := "[… retrieval truncated …]"
  const ELLIPSIS := "…"
  const SEPARATOR := "\n\n"

  function TokenBudget(tokens: Numeric): (n: nat)
    ensures n >= 1
  {
    if tokens.Finite? && tokens.value.Floor >= 1 then tokens.value.Floor else 1
  }

  // ---------------------------------------------------------------------------------------
  // Capped text
  // ---------------------------------------------------------------------------------------

  function CapCharacters(u: Unicode, text: string, max: int, marker: string): string {
    if Estimate(u, text) <= max then text
    else if max <= 0 then []
    else
      var suffix := ['\n'] + marker;
      var prefix := if Estimate(u, suffix) < max then VisiblePrefix(u, text, max, suffix) else [];
      if prefix != [] then prefix + suffix
      else if Estimate(u, ELLIPSIS) <= max then VisiblePrefix(u, text, max, ELLIPSIS) + ELLIPSIS
      else VisiblePrefix(u, Repeat('.', max), max, [])
  }

  function CapText(u: Unicode, text: string, tokens: Numeric): string {
    CapCharacters(u, text, TokenBudget(tokens), TRUNCATION_MARKER)
  }

  /** Capped text never exceeds its budget, and text within the budget is left alone. */
  lemma CapFits(u: Unicode, text: string, max: int, marker: string)
    ensures Estimate(u, CapCharacters(u, text, max, marker)) <= if max < 0 then 0 else max
    ensures Estimate(u, text) <= max ==> CapCharacters(u, text, max, marker) == text
  {
    if max > 0 {
      var suffix := ['\n'] + marker;
      if Estimate(u, suffix) <= max {
        VisiblePrefixFits(u, text, max, suffix);
      }
      if Estimate(u, ELLIPSIS) <= max {
        VisiblePrefixFits(u, text, max, ELLIPSIS);
      }
      var dots := Repeat('.', max);
      VisiblePrefixFits(u, dots, max, []);
      Nothing(VisiblePrefix(u, dots, max, []));
    }
  }

  lemma DotsNoStem(u: Unicode, n: nat)
    ensures NoHexStem(u, Repeat('.', n))
  {
  }

  lemma {:induction false} DotsEstimate(u: Unicode, n: nat)
    ensures Estimate(u, Repeat('.', n)) == n
  {
    if n > 0 {
      DotsEstimate(u, n - 1);
      assert Repeat('.', n) == Repeat('.', n - 1) + ['.'];
      EstimateSplits(u, Repeat('.', n - 1), ['.']);
      DotEstimate(u);
    }
  }

  /** As many dots as there are tokens fit. */
  lemma DotsFill(u: Unicode, max: nat)
    ensures VisiblePrefix(u, Repeat('.', max), max, []) == Repeat('.', max)
  {
    var dots := Repeat('.', max);
    DotsNoStem(u, max);
    DotsEstimate(u, max);
    VisiblePrefixLongest(u, dots, max, []);
    VisiblePrefixFits(u, dots, max, []);
    All(dots);
    Nothing(dots);
  }

  /** Nothing of the text is kept in front of the marker. */
  ghost predicate MarkerAlone(u: Unicode, text: string, max: nat, marker: string) {
    Estimate(u, ['\n'] + marker) >= max || KeptBefore(u, text, max, ['\n'] + marker, [])
  }

  /** Text that has to be cut keeps what can be kept of it in front of the marker or, if that is nothing, in front
      of an ellipsis. If not even that fits, it makes way for as many dots as there are tokens. */
  ghost predicate Cut(u: Unicode, text: string, max: nat, marker: string, cut: string) {
    || (exists prefix :: prefix != [] && Estimate(u, ['\n'] + marker) < max && cut == prefix + (['\n'] + marker)
                         && KeptBefore(u, text, max, ['\n'] + marker, prefix))
    || (MarkerAlone(u, text, max, marker)
        && exists prefix :: cut == prefix + ELLIPSIS && KeptBefore(u, text, max, ELLIPSIS, prefix))
    || (MarkerAlone(u, text, max, marker) && Estimate(u, ELLIPSIS) > max && cut == Repeat('.', max))
  }

  /** Text is cut only if it has to be, and never vanishes while there is a token left. */
  lemma CapForm(u: Unicode, text: string, max: nat, marker: string)
    requires max > 0
    ensures var capped := CapCharacters(u, text, max, marker);
            if Estimate(u, text) <= max then capped == text else capped != [] && Cut(u, text, max, marker, capped)
  {
    var suffix := ['\n'] + marker;
    if Estimate(u, text) > max {
      if Estimate(u, suffix) < max {
        VisiblePrefixKept(u, text, max, suffix);
      }
      if Estimate(u, ELLIPSIS) <= max {
        VisiblePrefixKept(u, text, max, ELLIPSIS);
      } else {
        DotsFill(u, max);
      }
    }
  }

  lemma CapTextFits(u: Unicode, text: string, tokens: Numeric)
    ensures Estimate(u, CapText(u, text, tokens)) <= TokenBudget(tokens)
  {
    CapFits(u, text, TokenBudget(tokens), TRUNCATION_MARKER);
  }

  // ---------------------------------------------------------------------------------------
  // One search record
  // ---------------------------------------------------------------------------------------

  /** The texts a record can be made of: what surrounds its escaped snippet, whole or cut short,
      and the two notices that can stand in for it. */
  datatype Parts = Parts(head: string, snippet: string, whole: string, cut: string, identified: string, minimal: string) {

    predicate Valid() {
      && head != [] && head[0] == '{' && head[|head| - 1] == '"'
      && whole != [] && whole[0] == '"'
      && cut != [] && cut[0] == '"'
      && identified != [] && identified[0] == '{'
      && minimal != [] && minimal[0] == '{'
    }
  }

  type Layout = parts: Parts | parts.Valid() witness Parts(['{', '"'], [], ['"'], ['"'], ['{'], ['{'])

  function Record(layout: Layout, snippet: string, truncated: bool): (record: string)
    ensures record != [] && record[0] == '{'
  {
    layout.head + Escape(true, snippet) + if truncated then layout.cut else layout.whole
  }

  function SnippetFits(u: Unicode, layout: Layout, available: int): int -> bool {
    (n: int) =>
      0 <= n <= |layout.snippet| && Estimate(u, Record(layout, layout.snippet[..n], true)) <= available
  }

  /** How much of the snippet the search keeps. */
  function FittedLength(u: Unicode, layout: Layout, available: int): (n: nat)
    ensures n <= |layout.snippet|
    ensures Estimate(u, Record(layout, [], true)) <= available ==>
              Estimate(u, Record(layout, layout.snippet[..n], true)) <= available
  {
    var fits := SnippetFits(u, layout, available);
    BisectFits(fits, 0, |layout.snippet|, 0);
    assert layout.snippet[..0] == [];
    Bisect(fits, 0, |layout.snippet|, 0)
  }

  /** What is kept of a result that does not fit as a whole. */
  function FitTruncated(u: Unicode, layout: Layout, available: int): Option<string> {
    if Estimate(u, Record(layout, [], true)) > available then
      if Estimate(u, layout.identified) <= available then Some(layout.identified)
      else if Estimate(u, layout.minimal) <= available then Some(layout.minimal)
      else None
    else
      Some(Record(layout, layout.snippet[..FittedLength(u, layout, available)], true))
  }

  /** The record of one result, fitted into the tokens that are left. */
  function FitRecord(u: Unicode, layout: Layout, available: int): Option<Fitted> {
    var full := Record(layout, layout.snippet, false);
    if Estimate(u, full) <= available then Some(Fitted(full, false))
    else
      var truncated := FitTruncated(u, layout, available);
      if truncated.Some? then Some(Fitted(truncated.value, true)) else None
  }

  /** The binary search of `fitRecord`, once the record without a snippet is known to fit. */
  method FitSnippet(u: Unicode, layout: Layout, available: int) returns (best: string)
    ensures best == Record(layout, layout.snippet[..FittedLength(u, layout, available)], true)
  {
    BisectFits(SnippetFits(u, layout, available), 0, |layout.snippet|, 0);
    var n := BisectLoop(SnippetFits(u, layout, available), |layout.snippet|);
    best := Record(layout, layout.snippet[..n], true);
  }

  method FitRecordMethod(u: Unicode, layout: Layout, available: int) returns (fitted: Option<Fitted>)
    ensures fitted == FitRecord(u, layout, available)
    ensures fitted.None? <==> NoFormFits(u, layout, available)
    ensures fitted.Some? ==> Estimate(u, fitted.value.text) <= available
    ensures fitted.Some? && fitted.value.truncated ==> CutRecord(u, layout, available, fitted.value.text)
  {
    FitRecordFits(u, layout, available);
    FitRecordCuts(u, layout, available);
    var full := Record(layout, layout.snippet, false);
    var fullTokens := EstimateModelVisibleTokens(u, full);
    if fullTokens <= available {
      return Some(Fitted(full, false));
    }
    var emptyTokens := EstimateModelVisibleTokens(u, Record(layout, [], true));
    if emptyTokens > available {
      var identifiedTokens := EstimateModelVisibleTokens(u, layout.identified);
      if identifiedTokens <= available {
        return Some(Fitted(layout.identified, true));
      }
      var minimalTokens := EstimateModelVisibleTokens(u, layout.minimal);
      return if minimalTokens <= available then Some(Fitted(layout.minimal, true)) else None;
    }
    var best := FitSnippet(u, layout, available);
    return Some(Fitted(best, true));
  }

  // ---------------------------------------------------------------------------------------
  // Properties of one record
  // ---------------------------------------------------------------------------------------

  /** A truncated form of a result: a prefix of its snippet, or one of the two notices. */
  ghost predicate Truncates(layout: Layout, text: string) {
    || text == layout.identified
    || text == layout.minimal
    || exists n :: 0 <= n <= |layout.snippet| && text == Record(layout, layout.snippet[..n], true)
  }

  lemma FitTruncatedFits(u: Unicode, layout: Layout, available: int)
    ensures var truncated := FitTruncated(u, layout, available);
            truncated.Some? ==>
              && Estimate(u, truncated.value) <= available
              && truncated.value != [] && truncated.value[0] == '{'
              && Truncates(layout, truncated.value)
  {
    var n := FittedLength(u, layout, available);
    assert Truncates(layout, Record(layout, layout.snippet[..n], true));
  }

  /** None of the four forms of a result fits: the whole record, the record without its snippet, and the two
      notices. */
  predicate NoFormFits(u: Unicode, layout: Layout, available: int) {
    && Estimate(u, Record(layout, layout.snippet, false)) > available
    && Estimate(u, Record(layout, [], true)) > available
    && Estimate(u, layout.identified) > available
    && Estimate(u, layout.minimal) > available
  }

  /** A record is produced unless no form fits; it stays inside its share, and is untruncated exactly when
      the whole fits. */
  lemma FitRecordFits(u: Unicode, layout: Layout, available: int)
    ensures var fitted := FitRecord(u, layout, available);
            && (fitted.None? <==> NoFormFits(u, layout, available))
            && (fitted.Some? ==>
                  && Estimate(u, fitted.value.text) <= available
                  && fitted.value.text != [] && fitted.value.text[0] == '{'
                  && (fitted.value.truncated <==> Estimate(u, Record(layout, layout.snippet, false)) > available))
  {
    FitTruncatedFits(u, layout, available);
  }

  /** The record is the whole one if that fits, else a truncated form if one fits, else nothing. */
  lemma FitRecordForm(u: Unicode, layout: Layout, available: int)
    ensures var fitted, full := FitRecord(u, layout, available), Record(layout, layout.snippet, false);
            if Estimate(u, full) <= available then fitted == Some(Fitted(full, false))
            else if NoFormFits(u, layout, available) then fitted == None
            else fitted.Some? && fitted.value.truncated && Truncates(layout, fitted.value.text)
  {
    FitTruncatedFits(u, layout, available);
  }

  /** The cost of a record is the cost of its frame and of its escaped snippet. */
  lemma RecordEstimate(u: Unicode, layout: Layout, snippet: string, truncated: bool)
    ensures Estimate(u, Record(layout, snippet, truncated))
         == Estimate(u, layout.head) + Estimate(u, Escape(true, snippet)) + Estimate(u, if truncated then layout.cut else layout.whole)
  {
    FramedEstimate(u, layout.head, Escape(true, snippet), if truncated then layout.cut else layout.whole);
  }

  /** A text between two quotes costs what it costs alone. */
  lemma FramedEstimate(u: Unicode, head: string, body: string, tail: string)
    requires head != [] && head[|head| - 1] == '"'
    requires tail != [] && tail[0] == '"'
    ensures Estimate(u, head + body + tail) == Estimate(u, head) + Estimate(u, body) + Estimate(u, tail)
  {
    EstimateSplits(u, body, tail);
    assert (body + tail)[0] == if body == [] then '"' else body[0];
    EstimateSplits(u, head, body + tail);
    Associate(head, body, tail);
  }

  lemma RecordsGrow(u: Unicode, layout: Layout, i: nat, j: nat)
    requires NoHexStem(u, Escape(true, layout.snippet))
    requires i <= j <= |layout.snippet|
    ensures Estimate(u, Record(layout, layout.snippet[..i], true))
         <= Estimate(u, Record(layout, layout.snippet[..j], true))
  {
    var escaped := Escape(true, layout.snippet);
    var shorter, longer := Escape(true, layout.snippet[..i]), Escape(true, layout.snippet[..j]);
    EscapePrefix(true, layout.snippet, i);
    EscapePrefix(true, layout.snippet, j);
    EscapePrefix(true, layout.snippet[..j], i);
    assert layout.snippet[..j][..i] == layout.snippet[..i];
    PrefixesGrowIff(u, escaped);
    assert shorter == escaped[..|shorter|] && longer == escaped[..|longer|];
    Nothing(shorter);
    Nothing(longer);
    RecordEstimate(u, layout, layout.snippet[..i], true);
    RecordEstimate(u, layout, layout.snippet[..j], true);
  }

  /** No longer part of the snippet fits. */
  ghost predicate LongestFitted(u: Unicode, layout: Layout, available: int) {
    forall n: nat :: FittedLength(u, layout, available) < n <= |layout.snippet| ==>
      Estimate(u, Record(layout, layout.snippet[..n], true)) > available
  }

  /** The kept prefix is the longest that fits, if no word of the escaped snippet outgrows a
      hexadecimal stem. */
  lemma FittedLengthLongest(u: Unicode, layout: Layout, available: int)
    requires NoHexStem(u, Escape(true, layout.snippet))
    requires Estimate(u, Record(layout, [], true)) <= available
    ensures LongestFitted(u, layout, available)
  {
    var fits := SnippetFits(u, layout, available);
    assert layout.snippet[..0] == [];
    forall i, j | 1 <= i <= j <= |layout.snippet| && fits(j)
      ensures fits(i)
    {
      RecordsGrow(u, layout, i, j);
    }
    BisectLongestFromZero(fits, |layout.snippet|);
    forall n: nat | FittedLength(u, layout, available) < n <= |layout.snippet|
      ensures Estimate(u, Record(layout, layout.snippet[..n], true)) > available
    {
      assert !fits(n);
    }
  }

  /** The same record for a beginning of the snippet. */
  function Beginning(layout: Layout, n: nat): Layout
    requires n <= |layout.snippet|
  {
    layout.(snippet := layout.snippet[..n])
  }

  /** An escape of several characters ends no stem: its backslash is no part of a word, and the letter behind
      it no hexadecimal digit. */
  lemma StemAtCharacter(u: Unicode, text: string, i: nat) returns (n: nat)
    requires i < |Escape(true, text)| && HexStemEnds(u, Escape(true, text), i)
    ensures n < |text| && i == |Escape(true, text[..n])| && i + 1 == |Escape(true, text[..n + 1])|
  {
    var k;
    n, k := EscapePosition(true, text, i);
    EscapeAt(true, text, n);
    EscapeShape(u, text[n]);
    NoStemInEscape(u, Escape(true, text), i, k, EscapeChar(true, text[n]));
  }

  lemma EscapeShape(u: Unicode, c: char)
    ensures var escape := EscapeChar(true, c);
            |escape| > 1 ==>
              && ClassOf(u, escape[0]) == Other
              && (|escape| > 2 ==> ClassOf(u, escape[1]) == Word && !IsHex(escape[1]))
              && (forall j :: 2 <= j < |escape| ==> ClassOf(u, escape[j]) == Word)
  {
  }

  lemma NoStemInEscape(u: Unicode, text: string, i: nat, k: nat, escape: string)
    requires i < |text| && HexStemEnds(u, text, i)
    requires k < |escape| && k <= i && i - k + |escape| <= |text|
    requires forall j :: 0 <= j < |escape| ==> text[i - k + j] == escape[j]
    requires |escape| > 1 ==> ClassOf(u, escape[0]) == Other
    requires |escape| > 2 ==> ClassOf(u, escape[1]) == Word && !IsHex(escape[1])
    requires forall j :: 2 <= j < |escape| ==> ClassOf(u, escape[j]) == Word
    ensures |escape| == 1
  {
    assert text[i] == text[i - k + k] == escape[k];
    assert k > 0 ==> text[i - 1] == text[i - k + (k - 1)] == escape[k - 1];
    if k >= 2 {
      var at := i - k + 1;
      assert text[at] == text[i - k + 1] == escape[1];
      forall j | at <= j < i
        ensures ClassOf(u, text[..i][j]) == Word
      {
        assert text[i - k + (j - (i - k))] == escape[j - (i - k)];
      }
      LetterInWord(u, text[..i], at);
      NotHexStem(u, text, i, at);
    }
  }

  /** A letter that is no hexadecimal digit keeps its word from being a stem. */
  lemma NotHexStem(u: Unicode, text: string, i: nat, at: nat)
    requires at < i < |text| && LastUnit(Lex(u), text[..i]) <= at && !IsHex(text[at])
    ensures !HexStemEnds(u, text, i)
  {
    var word := text[..i][LastUnit(Lex(u), text[..i])..];
    assert word[at - LastUnit(Lex(u), text[..i])] == text[at];
    assert text[at] in word;
  }

  /** A run of word characters at the end of a text belongs to its last unit. */
  lemma LetterInWord(u: Unicode, text: string, at: nat)
    requires at < |text| && forall j :: at <= j < |text| ==> ClassOf(u, text[j]) == Word
    ensures LastUnit(Lex(u), text) <= at
  {
  }

  lemma RecordsDrop(u: Unicode, layout: Layout, n: nat)
    requires n < |layout.snippet|
    requires var escaped, i := Escape(true, layout.snippet), |Escape(true, layout.snippet[..n])|;
             i < |escaped| && |Escape(true, layout.snippet[..n + 1])| == i + 1 && HexStemEnds(u, escaped, i)
    ensures Estimate(u, Record(layout, layout.snippet[..n + 1], true)) < Estimate(u, Record(layout, layout.snippet[..n], true))
  {
    EscapePrefix(true, layout.snippet, n);
    EscapePrefix(true, layout.snippet, n + 1);
    GrownPrefixDrops(u, Escape(true, layout.snippet), Escape(true, layout.snippet[..n]), Escape(true, layout.snippet[..n + 1]));
    RecordEstimate(u, layout, layout.snippet[..n], true);
    RecordEstimate(u, layout, layout.snippet[..n + 1], true);
  }

  /** With the tokens of the text that outgrows a stem, the search misses it. */
  lemma StemDefeatsFitting(u: Unicode, layout: Layout)
    requires layout.snippet != []
    requires var n := |layout.snippet|;
             Estimate(u, Record(layout, layout.snippet, true)) < Estimate(u, Record(layout, layout.snippet[..n - 1], true))
    ensures Estimate(u, Record(layout, [], true)) <= Estimate(u, Record(layout, layout.snippet, true))
    ensures !LongestFitted(u, layout, Estimate(u, Record(layout, layout.snippet, true)))
  {
    EmptyCheapest(u, layout);
    FittedMissed(u, layout, Estimate(u, Record(layout, layout.snippet, true)));
    All(layout.snippet);
  }

  lemma EmptyCheapest(u: Unicode, layout: Layout)
    ensures Estimate(u, Record(layout, [], true)) <= Estimate(u, Record(layout, layout.snippet, true))
  {
    RecordEstimate(u, layout, [], true);
    RecordEstimate(u, layout, layout.snippet, true);
  }

  lemma FittedMissed(u: Unicode, layout: Layout, available: int)
    requires layout.snippet != [] && !SnippetFits(u, layout, available)(|layout.snippet| - 1)
    ensures FittedLength(u, layout, available) < |layout.snippet|
  {
    LastMissed(SnippetFits(u, layout, available), |layout.snippet|);
  }

  /** The search keeps the longest part that fits, for every beginning of the snippet and every number of
      tokens that holds the record at all, if and only if no word of the escaped snippet outgrows a
      hexadecimal stem. */
  lemma FittedLengthLongestIff(u: Unicode, layout: Layout)
    ensures NoHexStem(u, Escape(true, layout.snippet)) <==>
              forall n: nat, available: int :: n <= |layout.snippet| && Estimate(u, Record(layout, [], true)) <= available ==>
                LongestFitted(u, Beginning(layout, n), available)
  {
    if NoHexStem(u, Escape(true, layout.snippet)) {
      forall n: nat, available: int | n <= |layout.snippet| && Estimate(u, Record(layout, [], true)) <= available
        ensures LongestFitted(u, Beginning(layout, n), available)
      {
        NoStemInBeginning(u, layout.snippet, n);
        FittedLengthLongest(u, Beginning(layout, n), available);
      }
    } else {
      var i: nat :| i < |Escape(true, layout.snippet)| && HexStemEnds(u, Escape(true, layout.snippet), i);
      var n := StemAtCharacter(u, layout.snippet, i);
      RecordsDrop(u, layout, n);
      BeginningDefeated(u, layout, n);
    }
  }

  /** What stands in for a result that does not fit as a whole: the record with a beginning of its snippet, if it
      fits without one, and else the first of the two notices that fits. One more character would not fit, and no
      longer beginning does if no word of the escaped snippet outgrows a hexadecimal stem. */
  ghost predicate CutRecord(u: Unicode, layout: Layout, available: int, text: string) {
    if Estimate(u, Record(layout, [], true)) <= available then
      exists m: nat :: m <= |layout.snippet| && text == Record(layout, layout.snippet[..m], true) && KeepsSnippet(u, layout, available, m)
    else if Estimate(u, layout.identified) <= available then text == layout.identified
    else text == layout.minimal && Estimate(u, layout.minimal) <= available
  }

  ghost predicate KeepsSnippet(u: Unicode, layout: Layout, available: int, m: nat)
    requires m <= |layout.snippet|
  {
    && Estimate(u, Record(layout, layout.snippet[..m], true)) <= available
    && (m < |layout.snippet| ==> Estimate(u, Record(layout, layout.snippet[..m + 1], true)) > available)
    && (NoHexStem(u, Escape(true, layout.snippet)) ==>
          forall n: nat :: n <= |layout.snippet| && Estimate(u, Record(layout, layout.snippet[..n], true)) <= available ==> n <= m)
  }

  lemma FittedLengthStops(u: Unicode, layout: Layout, available: int)
    requires Estimate(u, Record(layout, [], true)) <= available
    ensures var m := FittedLength(u, layout, available);
            m < |layout.snippet| ==> Estimate(u, Record(layout, layout.snippet[..m + 1], true)) > available
  {
    assert layout.snippet[..0] == [];
    BisectStopsFromZero(SnippetFits(u, layout, available), |layout.snippet|);
  }

  lemma FittedLengthKeeps(u: Unicode, layout: Layout, available: int, m: nat)
    requires Estimate(u, Record(layout, [], true)) <= available
    requires m == FittedLength(u, layout, available)
    ensures KeepsSnippet(u, layout, available, m)
  {
    FittedLengthStops(u, layout, available);
    if NoHexStem(u, Escape(true, layout.snippet)) {
      FittedLengthLongest(u, layout, available);
    }
  }

  /** The record of a result: whole if it fits, else cut as little as the search can tell. */
  lemma FitRecordCuts(u: Unicode, layout: Layout, available: int)
    ensures var fitted, full := FitRecord(u, layout, available), Record(layout, layout.snippet, false);
            if Estimate(u, full) <= available then fitted == Some(Fitted(full, false))
            else if NoFormFits(u, layout, available) then fitted == None
            else fitted.Some? && fitted.value.truncated && CutRecord(u, layout, available, fitted.value.text)
  {
    FitRecordForm(u, layout, available);
    if Estimate(u, Record(layout, [], true)) <= available {
      FittedLengthKeeps(u, layout, available, FittedLength(u, layout, available));
    }
  }

  lemma BeginningDefeated(u: Unicode, layout: Layout, n: nat)
    requires n < |layout.snippet|
    requires Estimate(u, Record(layout, layout.snippet[..n + 1], true)) < Estimate(u, Record(layout, layout.snippet[..n], true))
    ensures var available := Estimate(u, Record(layout, layout.snippet[..n + 1], true));
            Estimate(u, Record(layout, [], true)) <= available && !LongestFitted(u, Beginning(layout, n + 1), available)
  {
    assert layout.snippet[..n + 1][..n] == layout.snippet[..n];
    StemDefeatsFitting(u, Beginning(layout, n + 1));
  }

  lemma NoStemInBeginning(u: Unicode, snippet: string, n: nat)
    requires n <= |snippet| && NoHexStem(u, Escape(true, snippet))
    ensures NoHexStem(u, Escape(true, snippet[..n]))
  {
    EscapePrefix(true, snippet, n);
    NoStemInPrefix(u, Escape(true, snippet), Escape(true, snippet[..n]));
  }

  // ---------------------------------------------------------------------------------------
  // Search results
  // ---------------------------------------------------------------------------------------

  /** A score as a number and as the JSON text it is printed with. */
  datatype Score = Score(value: real, json: string)

  /** `structural` is the JSON text of the structural block, present for a structural search only. */
  datatype SearchResult = SearchResult(
    id: string,
    kind: Option<string>,
    score: Option<Score>,
    sourceTimestamp: Option<string>,
    snippet: string,
    structural: Option<string>)

  function RelevanceBand(value: real): string {
    if value >= 0.8 then "high" else if value >= 0.5 then "moderate" else if value >= 0.2 then "some" else "low"
  }

  function OneLine(text: string): string {
    Quote(true, text)
  }

  const FORMAT_FIELD := "\"format\":" + "\"context-window." + "archived-search-result.v1\""
  const TRUST_FIELD := "\"trust\":" + "\"untrusted-archived-data\""
  const NOTICE_FIELD := "\"notice\":" + "\"retrieval truncated\""
  const TRUNCATED_FIELD := "\"truncated\":true"

  function KindField(result: SearchResult): string {
    if result.kind.Some? then ",\"kind\":" + OneLine(result.kind.value) else ""
  }

  function ScoreFields(result: SearchResult): string {
    if result.score.Some? then
      ",\"score\":" + result.score.value.json + ",\"relevanceBand\":" + OneLine(RelevanceBand(result.score.value.value))
    else ""
  }

  function TimestampField(result: SearchResult): string {
    if result.sourceTimestamp.Some? then ",\"sourceTimestamp\":" + OneLine(result.sourceTimestamp.value) else ""
  }

  function RecordHead(result: SearchResult, index: nat): string {
    ['{'] + FORMAT_FIELD + "," + TRUST_FIELD + ",\"rank\":" + Decimal(index + 1) + ",\"recallId\":" + OneLine(result.id)
    + KindField(result) + ScoreFields(result) + TimestampField(result) + ",\"snippet\":" + ['"']
  }

  function RecordTail(result: SearchResult, truncated: bool): string {
    ['"']
    + (if result.structural.Some? then ",\"structural\":" + result.structural.value else "")
    + (if truncated then "," + TRUNCATED_FIELD + "," + NOTICE_FIELD else "")
    + "}"
  }

  function MinimalTruncation(): (record: string)
    ensures record != [] && record[0] == '{'
  {
    ['{'] + FORMAT_FIELD + "," + TRUST_FIELD + "," + TRUNCATED_FIELD + "," + NOTICE_FIELD + "}"
  }

  /** The record of a search result. */
  function LayoutOf(result: SearchResult, index: nat): Layout {
    Parts(RecordHead(result, index), result.snippet, RecordTail(result, false), RecordTail(result, true),
          ['{'] + TRUST_FIELD + ",\"recallId\":" + OneLine(result.id) + "," + NOTICE_FIELD + "}",
          MinimalTruncation())
  }

  /** The texts of a result that are printed as they come are on one line, as JSON without indentation is. */
  ghost predicate SingleLineJson(result: SearchResult) {
    && (result.score.Some? ==> SingleLine(result.score.value.json))
    && (result.structural.Some? ==> SingleLine(result.structural.value))
  }

  lemma QuotedSingleLine(text: string)
    ensures SingleLine(OneLine(text))
  {
    EscapedSingleLine(text);
    SingleLineConcat(['"'], Escape(true, text));
    SingleLineConcat(['"'] + Escape(true, text), ['"']);
  }

  lemma DecimalSingleLine(n: nat)
    ensures SingleLine(Decimal(n))
  {
    forall i | 0 <= i < |Decimal(n)|
      ensures Decimal(n)[i] as int >= 0x20 && Decimal(n)[i] <= '9'
    {
      assert Decimal(n)[i] in Decimal(n);
    }
  }

  lemma FormatSingleLine()
    ensures SingleLine(FORMAT_FIELD)
  {
    SingleLineConcat("\"format\":", "\"context-window.");
    SingleLineConcat("\"format\":" + "\"context-window.", "archived-search-result.v1\"");
  }

  lemma TrustSingleLine()
    ensures SingleLine(TRUST_FIELD)
  {
    SingleLineConcat("\"trust\":", "\"untrusted-archived-data\"");
  }

  lemma NoticeSingleLine()
    ensures SingleLine(NOTICE_FIELD) && SingleLine(TRUNCATED_FIELD)
  {
    SingleLineConcat("\"notice\":", "\"retrieval truncated\"");
  }

  lemma FieldsSingleLine()
    ensures SingleLine(FORMAT_FIELD) && SingleLine(TRUST_FIELD) && SingleLine(NOTICE_FIELD) && SingleLine(TRUNCATED_FIELD)
  {
    FormatSingleLine();
    TrustSingleLine();
    NoticeSingleLine();
  }

  lemma Lines3(a: string, b: string, c: string)
    requires SingleLine(a) && SingleLine(b) && SingleLine(c)
    ensures SingleLine(a + b + c)
  {
    SingleLineConcat(a, b);
    SingleLineConcat(a + b, c);
  }

  lemma Lines4(a: string, b: string, c: string, d: string)
    requires SingleLine(a) && SingleLine(b) && SingleLine(c) && SingleLine(d)
    ensures SingleLine(a + b + c + d)
  {
    Lines3(a, b, c);
    SingleLineConcat(a + b + c, d);
  }

  lemma Lines13(
    a: string, b: string, c: string, d: string, e: string, f: string, g: string, h: string, i: string, j: string, k: string,
    l: string, m: string)
    requires SingleLine(a) && SingleLine(b) && SingleLine(c) && SingleLine(d) && SingleLine(e) && SingleLine(f) && SingleLine(g)
    requires SingleLine(h) && SingleLine(i) && SingleLine(j) && SingleLine(k) && SingleLine(l) && SingleLine(m)
    ensures SingleLine(a + b + c + d + e + f + g + h + i + j + k + l + m)
  {
    Lines4(a, b, c, d);
    Lines4(a + b + c + d, e, f, g);
    Lines4(a + b + c + d + e + f + g, h, i, j);
    Lines4(a + b + c + d + e + f + g + h + i + j, k, l, m);
  }

  lemma FirstKeysSingleLine()
    ensures SingleLine(",") && SingleLine(",\"rank\":") && SingleLine(",\"recallId\":") && SingleLine(",\"kind\":")
  {
  }

  lemma OtherKeysSingleLine()
    ensures SingleLine(",\"score\":") && SingleLine(",\"relevanceBand\":")
    ensures SingleLine(",\"sourceTimestamp\":")
  {
  }

  lemma LastKeysSingleLine()
    ensures SingleLine(",\"snippet\":") && SingleLine(",\"structural\":")
  {
  }

  lemma KeysSingleLine()
    ensures SingleLine(",") && SingleLine(",\"rank\":") && SingleLine(",\"recallId\":") && SingleLine(",\"kind\":")
    ensures SingleLine(",\"score\":") && SingleLine(",\"relevanceBand\":") && SingleLine(",\"sourceTimestamp\":")
    ensures SingleLine(",\"snippet\":") && SingleLine(",\"structural\":")
  {
    FirstKeysSingleLine();
    OtherKeysSingleLine();
    LastKeysSingleLine();
  }

  lemma OptionalSingleLine(result: SearchResult)
    requires SingleLineJson(result)
    ensures SingleLine(KindField(result)) && SingleLine(ScoreFields(result)) && SingleLine(TimestampField(result))
  {
    KeysSingleLine();
    if result.kind.Some? {
      QuotedSingleLine(result.kind.value);
      SingleLineConcat(",\"kind\":", OneLine(result.kind.value));
    }
    if result.score.Some? {
      var band := OneLine(RelevanceBand(result.score.value.value));
      QuotedSingleLine(RelevanceBand(result.score.value.value));
      Lines4(",\"score\":", result.score.value.json, ",\"relevanceBand\":", band);
    }
    if result.sourceTimestamp.Some? {
      QuotedSingleLine(result.sourceTimestamp.value);
      SingleLineConcat(",\"sourceTimestamp\":", OneLine(result.sourceTimestamp.value));
    }
  }

  lemma HeadSingleLine(result: SearchResult, index: nat)
    requires SingleLineJson(result)
    ensures SingleLine(RecordHead(result, index))
  {
    FieldsSingleLine();
    KeysSingleLine();
    DecimalSingleLine(index + 1);
    QuotedSingleLine(result.id);
    OptionalSingleLine(result);
    Lines13(['{'], FORMAT_FIELD, ",", TRUST_FIELD, ",\"rank\":", Decimal(index + 1), ",\"recallId\":", OneLine(result.id),
            KindField(result), ScoreFields(result), TimestampField(result), ",\"snippet\":", ['"']);
  }

  lemma TailSingleLine(result: SearchResult, truncated: bool)
    requires SingleLineJson(result)
    ensures SingleLine(RecordTail(result, truncated))
  {
    FieldsSingleLine();
    KeysSingleLine();
    var structural := if result.structural.Some? then ",\"structural\":" + result.structural.value else "";
    var notice := if truncated then "," + TRUNCATED_FIELD + "," + NOTICE_FIELD else "";
    if result.structural.Some? {
      SingleLineConcat(",\"structural\":", result.structural.value);
    }
    if truncated {
      Lines4(",", TRUNCATED_FIELD, ",", NOTICE_FIELD);
    }
    Lines4(['"'], structural, notice, "}");
  }

  /** A search record is on one line, whole or cut, whatever its snippet and its other texts say. */
  lemma RecordSingleLine(result: SearchResult, index: nat, snippet: string, truncated: bool)
    requires SingleLineJson(result)
    ensures SingleLine(Record(LayoutOf(result, index), snippet, truncated))
  {
    HeadSingleLine(result, index);
    EscapedSingleLine(snippet);
    TailSingleLine(result, truncated);
    Lines3(RecordHead(result, index), Escape(true, snippet), RecordTail(result, truncated));
  }

  lemma NoticesSingleLine(result: SearchResult, index: nat)
    ensures SingleLine(LayoutOf(result, index).identified) && SingleLine(MinimalTruncation())
  {
    FieldsSingleLine();
    KeysSingleLine();
    QuotedSingleLine(result.id);
    Lines4(['{'], TRUST_FIELD, ",\"recallId\":", OneLine(result.id));
    Lines4(['{'] + TRUST_FIELD + ",\"recallId\":" + OneLine(result.id), ",", NOTICE_FIELD, "}");
    Lines4(['{'], FORMAT_FIELD, ",", TRUST_FIELD);
    Lines3(['{'] + FORMAT_FIELD + "," + TRUST_FIELD, ",", TRUNCATED_FIELD);
    Lines4(['{'] + FORMAT_FIELD + "," + TRUST_FIELD + "," + TRUNCATED_FIELD, ",", NOTICE_FIELD, "}");
  }

  /** Whatever is produced for a result, whole or truncated, is on one line. */
  lemma FittedSingleLine(u: Unicode, result: SearchResult, index: nat, available: int)
    requires SingleLineJson(result)
    ensures var fitted := FitRecord(u, LayoutOf(result, index), available);
            fitted.Some? ==> SingleLine(fitted.value.text)
  {
    var layout := LayoutOf(result, index);
    FitRecordForm(u, layout, available);
    FitTruncatedFits(u, layout, available);
    RecordSingleLine(result, index, result.snippet, false);
    NoticesSingleLine(result, index);
    forall n | 0 <= n <= |layout.snippet|
      ensures SingleLine(Record(layout, layout.snippet[..n], true))
    {
      RecordSingleLine(result, index, layout.snippet[..n], true);
    }
  }

  const NO_MATCH := "\n\nNo matching archived context."

  /** The token cost and the record fitter of a list of results. */
  function SearchRenderer(u: Unicode, results: seq<SearchResult>): Renderer {
    Renderer(|results|, SEPARATOR, Estimate(u, MinimalTruncation()),
             (text: string) => Estimate(u, text),
             (index: nat, available: int) => if index < |results| then FitRecord(u, LayoutOf(results[index], index), available) else None)
  }

  ghost function SearchForms(results: seq<SearchResult>): Forms {
    Forms((index: nat) => if index < |results| then Record(LayoutOf(results[index], index), results[index].snippet, false) else [],
          (index: nat, text: string) => index < |results| && Truncates(LayoutOf(results[index], index), text))
  }

  /** `header` is the heading with the notices that apply, joined by blank lines. */
  function SearchText(u: Unicode, header: string, results: seq<SearchResult>, tokenLimit: Numeric): string {
    var maxTokens := TokenBudget(tokenLimit);
    if Estimate(u, header) >= maxTokens then VisiblePrefix(u, header, maxTokens, [])
    else if |results| == 0 then CapText(u, header + NO_MATCH, tokenLimit)
    else RenderFrom(SearchRenderer(u, results), 0, maxTokens, header)
  }

  method FormatSearchResults(u: Unicode, header: string, results: seq<SearchResult>, tokenLimit: Numeric)
    returns (output: string)
    ensures output == SearchText(u, header, results, tokenLimit)
    ensures Estimate(u, output) <= TokenBudget(tokenLimit)
    ensures results != [] && Estimate(u, header) < TokenBudget(tokenLimit) ==>
              exists m, rest :: ShowsResults(u, results, header, TokenBudget(tokenLimit), output, m, rest)
  {
    SearchTextFits(u, header, results, tokenLimit);
    var maxTokens := TokenBudget(tokenLimit);
    var headerTokens := EstimateModelVisibleTokens(u, header);
    if headerTokens >= maxTokens {
      output := ModelVisiblePrefix(u, header, maxTokens, []);
      return;
    }
    if |results| == 0 {
      return CapText(u, header + NO_MATCH, tokenLimit);
    }
    ghost var m, rest := ResultsShown(u, results, header, maxTokens);
    output := RenderRecords(SearchRenderer(u, results), maxTokens, header);
  }

  /** Appending a record behind a blank line costs no more than its parts, whatever precedes it. */
  lemma AppendEstimate(u: Unicode, output: string, record: string)
    requires record != [] && record[0] == '{'
    ensures Estimate(u, output + (SEPARATOR + record)) <= Estimate(u, output) + Estimate(u, SEPARATOR) + Estimate(u, record)
  {
    EstimateSplits(u, SEPARATOR, record);
    EstimateSubadditive(u, output, SEPARATOR + record);
  }

  lemma FitRecordAppends(u: Unicode, layout: Layout, available: int, output: string)
    requires FitRecord(u, layout, available).Some?
    ensures var text := FitRecord(u, layout, available).value.text;
            && Estimate(u, text) <= available
            && Estimate(u, output + (SEPARATOR + text)) <= Estimate(u, output) + Estimate(u, SEPARATOR) + Estimate(u, text)
  {
    FitRecordFits(u, layout, available);
    AppendEstimate(u, output, FitRecord(u, layout, available).value.text);
  }

  lemma SearchEconomicalAt(u: Unicode, results: seq<SearchResult>, index: nat, available: int, output: string)
    requires index < |results|
    ensures EconomicalAt(SearchRenderer(u, results), index, available, output)
  {
    var fitted := FitRecord(u, LayoutOf(results[index], index), available);
    if fitted.Some? {
      FitRecordAppends(u, LayoutOf(results[index], index), available, output);
    }
  }

  lemma SearchRendererEconomical(u: Unicode, results: seq<SearchResult>)
    ensures Economical(SearchRenderer(u, results))
  {
    var r := SearchRenderer(u, results);
    forall index: nat, available, output | index < r.count
      ensures EconomicalAt(r, index, available, output)
    {
      SearchEconomicalAt(u, results, index, available, output);
    }
  }

  /** On every path the rendered results stay within the budget. */
  lemma SearchTextFits(u: Unicode, header: string, results: seq<SearchResult>, tokenLimit: Numeric)
    ensures Estimate(u, SearchText(u, header, results, tokenLimit)) <= TokenBudget(tokenLimit)
  {
    var maxTokens := TokenBudget(tokenLimit);
    if Estimate(u, header) >= maxTokens {
      VisiblePrefixFits(u, header, maxTokens, []);
      Nothing(VisiblePrefix(u, header, maxTokens, []));
    } else if |results| == 0 {
      CapFits(u, header + NO_MATCH, maxTokens, TRUNCATION_MARKER);
    } else {
      SearchRendererEconomical(u, results);
      RenderFits(SearchRenderer(u, results), 0, maxTokens, header);
    }
  }

  /** What follows the listing: nothing, or the next record, cut to the tokens that are left. */
  ghost predicate CutBehind(u: Unicode, results: seq<SearchResult>, left: int, m: nat, rest: string) {
    rest == [] || (m < |results| && SEPARATOR <= rest && CutRecord(u, LayoutOf(results[m], m), left, rest[|SEPARATOR|..]))
  }

  /** The header, the first `m` results, whole and in order, and the next one, cut. */
  ghost predicate ShowsResults(
    u: Unicode, results: seq<SearchResult>, header: string, maxTokens: nat, output: string, m: nat, rest: string)
  {
    var r, forms := SearchRenderer(u, results), SearchForms(results);
    && output == Listed(r, forms, header, m) + rest && StopsAt(r, forms, header, maxTokens, m, rest)
    && CutBehind(u, results, Left(r, forms, header, maxTokens, m), m, rest)
  }

  lemma ResultsShown(u: Unicode, results: seq<SearchResult>, header: string, maxTokens: nat) returns (m: nat, rest: string)
    ensures ShowsResults(u, results, header, maxTokens, RenderFrom(SearchRenderer(u, results), 0, maxTokens, header), m, rest)
  {
    SearchRendererFaithful(u, results);
    m, rest := RenderShows(SearchRenderer(u, results), SearchForms(results), header, maxTokens, 0);
    RestIsCut(u, results, header, maxTokens, m, rest);
  }

  /** What a reader of the results can rely on: either the header alone had to be cut, or the header is followed
      by the first `m` results, whole and in order, and by the next one, cut. Nothing follows only if all are
      shown, if less is left than the smallest record costs, or if no form of the next one fits. */
  lemma SearchTextShows(u: Unicode, header: string, results: seq<SearchResult>, tokenLimit: Numeric)
    returns (m: nat, rest: string)
    requires results != []
    ensures var output, maxTokens := SearchText(u, header, results, tokenLimit), TokenBudget(tokenLimit);
            if Estimate(u, header) >= maxTokens then KeptBefore(u, header, maxTokens, [], output)
            else ShowsResults(u, results, header, maxTokens, output, m, rest)
  {
    m, rest := ResultsShown(u, results, header, TokenBudget(tokenLimit));
    VisiblePrefixKept(u, header, TokenBudget(tokenLimit), []);
  }

  lemma RestIsCut(u: Unicode, results: seq<SearchResult>, header: string, maxTokens: nat, m: nat, rest: string)
    requires StopsAt(SearchRenderer(u, results), SearchForms(results), header, maxTokens, m, rest)
    ensures CutBehind(u, results, Left(SearchRenderer(u, results), SearchForms(results), header, maxTokens, m), m, rest)
  {
    if rest != [] {
      var left := Left(SearchRenderer(u, results), SearchForms(results), header, maxTokens, m);
      assert SearchRenderer(u, results).fit(m, left) == FitRecord(u, LayoutOf(results[m], m), left);
      assert SearchForms(results).full(m) == Record(LayoutOf(results[m], m), results[m].snippet, false);
      FitRecordCuts(u, LayoutOf(results[m], m), left);
      FitRecordFits(u, LayoutOf(results[m], m), left);
    }
  }

  /** Without results, the header says so. */
  lemma NoResultsShown(u: Unicode, header: string, tokenLimit: Numeric)
    ensures var output, maxTokens := SearchText(u, header, [], tokenLimit), TokenBudget(tokenLimit);
            if Estimate(u, header) >= maxTokens then KeptBefore(u, header, maxTokens, [], output)
            else if Estimate(u, header + NO_MATCH) <= maxTokens then output == header + NO_MATCH
            else Cut(u, header + NO_MATCH, maxTokens, TRUNCATION_MARKER, output)
  {
    VisiblePrefixKept(u, header, TokenBudget(tokenLimit), []);
    CapForm(u, header + NO_MATCH, TokenBudget(tokenLimit), TRUNCATION_MARKER);
  }

  lemma RecordCosts(u: Unicode, record: string)
    requires record != [] && record[0] == '{'
    ensures Estimate(u, record) > 0
  {
    Whole(record, 1);
    assert record[..1] == ['{'] && ClassOf(u, '{') == Other;
    EstimateSplits(u, ['{'], record[1..]);
    HeadUnit(Lex(u), ['{'], []);
  }

  lemma SearchRendererFaithful(u: Unicode, results: seq<SearchResult>)
    ensures Faithful(SearchRenderer(u, results), SearchForms(results))
  {
    var r, forms := SearchRenderer(u, results), SearchForms(results);
    forall index: nat, available | index < r.count
      ensures FaithfulAt(r, forms, index, available)
    {
      FitRecordForm(u, LayoutOf(results[index], index), available);
      RecordCosts(u, Record(LayoutOf(results[index], index), results[index].snippet, false));
    }
  }

  /** Where a record may follow the listing, it does as soon as one of its forms fits. */
  lemma NextRecordShown(u: Unicode, header: string, results: seq<SearchResult>, maxTokens: nat, m: nat, rest: string)
    requires var r, forms := SearchRenderer(u, results), SearchForms(results);
             && m < |results| && StopsAt(r, forms, header, maxTokens, m, rest)
             && (m == 0 || Left(r, forms, header, maxTokens, m) >= Estimate(u, MinimalTruncation()))
    ensures var left := Left(SearchRenderer(u, results), SearchForms(results), header, maxTokens, m);
            && Estimate(u, Record(LayoutOf(results[m], m), results[m].snippet, false)) > left
            && (rest == [] <==> NoFormFits(u, LayoutOf(results[m], m), left))
  {
    var left := Left(SearchRenderer(u, results), SearchForms(results), header, maxTokens, m);
    ProducedIff(u, LayoutOf(results[m], m), left);
    assert SearchRenderer(u, results).fit(m, left) == FitRecord(u, LayoutOf(results[m], m), left);
    NextShown(SearchRenderer(u, results), SearchForms(results), header, maxTokens, m, rest);
  }

  lemma ProducedIff(u: Unicode, layout: Layout, available: int)
    ensures available > 0 && FitRecord(u, layout, available).Some? <==> !NoFormFits(u, layout, available)
  {
    FitRecordFits(u, layout, available);
    if available <= 0 {
      NothingForFree(u, layout, available);
    }
  }

  lemma NothingForFree(u: Unicode, layout: Layout, available: int)
    requires available <= 0
    ensures NoFormFits(u, layout, available)
  {
    RecordCosts(u, Record(layout, layout.snippet, false));
    RecordCosts(u, Record(layout, [], true));
    RecordCosts(u, layout.identified);
    RecordCosts(u, layout.minimal);
  }
}

/** Recalled documents and gathered evidence of `src/presentation.js`, within their token budgets. */
module Recall {
  import opened Wrappers
  import opened Sequences
  import opened Decimals
  import opened Scanner
  import opened TokenEstimate
  import opened Presentation
  import opened TraversalPage

  // ---------------------------------------------------------------------------------------
  // One document
  // ---------------------------------------------------------------------------------------

  /** A document whose text the daemon has framed as one record, or one that is framed here, with its
      two provenance sections, of which the second may be empty. */
  datatype Document = Framed(text: string) | Unframed(id: string, kind: string, text: string, concise: string, additional: string)

  const EXCEEDED := "\n\nArchived recall exceeded " + "its presentation budget."

  function EvidencePrefix(document: Document): (prefix: string)
    requires document.Unframed?
    ensures prefix != [] && prefix[|prefix| - 1] == '\n'
  {
    HEADING + "\n\n# " + document.id + " (" + document.kind + ")\n\n## Deterministic archived serialization" + ['\n']
  }

  function NotFound(requestedId: string): string {
    HEADING + "\n\nNo archived document" + (if requestedId != [] then " with id " + requestedId else []) + "."
  }

  /** What a text costs and how it is capped. */
  datatype Measure = Measure(cost: string -> nat, cap: (string, nat) -> string)

  function MeasureOf(u: Unicode): Measure {
    Measure((text: string) => Estimate(u, text),
            (text: string, max: nat) => CapCharacters(u, text, max, TRUNCATION_MARKER))
  }

  datatype Added = Added(output: string, more: bool)

  /** One provenance section, capped to what is left. */
  function AddSection(m: Measure, section: string, max: nat, output: string): Added {
    var remaining := max - m.cost(output);
    if section == [] then Added(output, true)
    else if remaining <= m.cost(SEPARATOR) then Added(output, false)
    else
      var budget := remaining - m.cost(SEPARATOR);
      Added(output + (SEPARATOR + m.cap(section, budget)), m.cost(section) <= budget)
  }

  function AddSections(m: Measure, sections: seq<string>, max: nat, output: string): string {
    if sections == [] then output
    else
      var added := AddSection(m, sections[0], max, output);
      if added.more then AddSections(m, sections[1..], max, added.output) else added.output
  }

  /** The text behind its prefix, with the provenance sections that still fit. */
  function PrefixedText(m: Measure, prefix: string, text: string, sections: seq<string>, max: nat): string {
    if m.cost(prefix) >= max then m.cap(prefix, max)
    else
      var budget := max - m.cost(prefix);
      if m.cost(text) > budget then prefix + m.cap(text, budget) else AddSections(m, sections, max, prefix + text)
  }

  function RecalledText(u: Unicode, document: Option<Document>, tokenLimit: Numeric, requestedId: string): string {
    if document.None? then CapText(u, NotFound(requestedId), tokenLimit)
    else
      match document.value
      case Framed(text) =>
        if Estimate(u, text) <= TokenBudget(tokenLimit) then text else CapText(u, HEADING + EXCEEDED, tokenLimit)
      case Unframed(_, _, text, concise, additional) =>
        PrefixedText(MeasureOf(u), EvidencePrefix(document.value), text, [concise, additional], TokenBudget(tokenLimit))
  }

  method AddAllSections(m: Measure, sections: seq<string>, max: nat, start: string) returns (output: string)
    ensures output == AddSections(m, sections, max, start)
  {
    output := start;
    All(sections);
    for i := 0 to |sections|
      invariant AddSections(m, sections[i..], max, output) == AddSections(m, sections, max, start)
    {
      assert sections[i..][1..] == sections[i + 1..];
      if sections[i] == [] {
        continue;
      }
      var remaining := max - m.cost(output);
      if remaining <= m.cost(SEPARATOR) {
        break;
      }
      var budget := remaining - m.cost(SEPARATOR);
      output := output + (SEPARATOR + m.cap(sections[i], budget));
      if m.cost(sections[i]) > budget {
        break;
      }
    }
  }

  method AddPrefix(m: Measure, prefix: string, text: string, sections: seq<string>, max: nat) returns (output: string)
    ensures output == PrefixedText(m, prefix, text, sections, max)
  {
    if m.cost(prefix) >= max {
      return m.cap(prefix, max);
    }
    var budget := max - m.cost(prefix);
    if m.cost(text) > budget {
      return prefix + m.cap(text, budget);
    }
    output := AddAllSections(m, sections, max, prefix + text);
  }

  method FormatRecalledDocument(u: Unicode, document: Option<Document>, tokenLimit: Numeric, requestedId: string)
    returns (output: string)
    ensures output == RecalledText(u, document, tokenLimit, requestedId)
    ensures Estimate(u, output) <= TokenBudget(tokenLimit)
  {
    RecalledTextFits(u, document, tokenLimit, requestedId);
    if document.None? {
      return CapText(u, NotFound(requestedId), tokenLimit);
    }
    var max := TokenBudget(tokenLimit);
    if document.value.Framed? {
      var tokens := EstimateModelVisibleTokens(u, document.value.text);
      if tokens <= max {
        return document.value.text;
      }
      return CapText(u, HEADING + EXCEEDED, tokenLimit);
    }
    output := AddPrefix(MeasureOf(u), EvidencePrefix(document.value), document.value.text,
                        [document.value.concise, document.value.additional], max);
  }

  lemma LineBreakIsNoWord(u: Unicode)
    ensures ClassOf(u, '\n') != Word
  {
  }

  /** Behind a line break nothing fuses with a word. */
  lemma AfterLineBreak(u: Unicode, a: string, b: string)
    requires a != [] && a[|a| - 1] == '\n'
    ensures Estimate(u, a + b) <= Estimate(u, a) + Estimate(u, b)
  {
    LineBreakIsNoWord(u);
    EstimateSubadditive(u, a, b);
  }

  /** A blank line costs what it costs by itself, at most, whatever it separates. */
  lemma SeparatedEstimate(u: Unicode, output: string, section: string)
    ensures Estimate(u, output + (SEPARATOR + section)) <= Estimate(u, output) + Estimate(u, SEPARATOR) + Estimate(u, section)
  {
    LineBreakIsNoWord(u);
    AfterLineBreak(u, SEPARATOR, section);
    EstimateSubadditive(u, output, SEPARATOR + section);
  }

  /** Capping keeps to its limit, and what is put behind a line break or a blank line costs no more than its
      parts. */
  ghost predicate Economical(m: Measure) {
    && (forall text, max: nat :: m.cost(m.cap(text, max)) <= max)
    && (forall a, b :: a != [] && a[|a| - 1] == '\n' ==> m.cost(a + b) <= m.cost(a) + m.cost(b))
    && (forall a, b :: m.cost(a + (SEPARATOR + b)) <= m.cost(a) + m.cost(SEPARATOR) + m.cost(b))
  }

  lemma MeasureIsEconomical(u: Unicode)
    ensures Economical(MeasureOf(u))
  {
    var m := MeasureOf(u);
    forall text, max: nat
      ensures m.cost(m.cap(text, max)) <= max
    {
      CapFits(u, text, max, TRUNCATION_MARKER);
    }
    forall a, b | a != [] && a[|a| - 1] == '\n'
      ensures m.cost(a + b) <= m.cost(a) + m.cost(b)
    {
      AfterLineBreak(u, a, b);
    }
    forall a, b
      ensures m.cost(a + (SEPARATOR + b)) <= m.cost(a) + m.cost(SEPARATOR) + m.cost(b)
    {
      SeparatedEstimate(u, a, b);
    }
  }

  lemma {:induction false} AddSectionsFit(m: Measure, sections: seq<string>, max: nat, output: string)
    requires Economical(m)
    requires m.cost(output) <= max
    ensures m.cost(AddSections(m, sections, max, output)) <= max
    ensures output <= AddSections(m, sections, max, output)
  {
    if sections != [] {
      var added := AddSection(m, sections[0], max, output);
      assert m.cost(added.output) <= max && output <= added.output;
      AddSectionsFit(m, sections[1..], max, added.output);
    }
  }

  lemma PrefixedTextFits(m: Measure, prefix: string, text: string, sections: seq<string>, max: nat)
    requires Economical(m)
    requires prefix != [] && prefix[|prefix| - 1] == '\n'
    ensures m.cost(PrefixedText(m, prefix, text, sections, max)) <= max
    ensures m.cost(prefix) < max && m.cost(prefix) + m.cost(text) <= max ==>
              prefix + text <= PrefixedText(m, prefix, text, sections, max)
  {
    if m.cost(prefix) < max && m.cost(prefix) + m.cost(text) <= max {
      AddSectionsFit(m, sections, max, prefix + text);
    }
  }

  /** A recalled document stays within its budget on every path. */
  lemma RecalledTextFits(u: Unicode, document: Option<Document>, tokenLimit: Numeric, requestedId: string)
    ensures Estimate(u, RecalledText(u, document, tokenLimit, requestedId)) <= TokenBudget(tokenLimit)
  {
    var max := TokenBudget(tokenLimit);
    CapFits(u, NotFound(requestedId), max, TRUNCATION_MARKER);
    CapFits(u, HEADING + EXCEEDED, max, TRUNCATION_MARKER);
    if document.Some? && document.value.Unframed? {
      MeasureIsEconomical(u);
      PrefixedTextFits(MeasureOf(u), EvidencePrefix(document.value), document.value.text,
                       [document.value.concise, document.value.additional], max);
    }
  }

  /** A document that is framed here is shown whole, with as much of its provenance as fits, whenever its
      prefix and its text fit together. */
  lemma RecalledTextWhole(u: Unicode, document: Document, tokenLimit: Numeric, requestedId: string)
    requires document.Unframed?
    requires Estimate(u, EvidencePrefix(document)) < TokenBudget(tokenLimit)
    requires Estimate(u, EvidencePrefix(document)) + Estimate(u, document.text) <= TokenBudget(tokenLimit)
    ensures EvidencePrefix(document) + document.text <= RecalledText(u, Some(document), tokenLimit, requestedId)
  {
    MeasureIsEconomical(u);
    PrefixedTextFits(MeasureOf(u), EvidencePrefix(document), document.text, [document.concise, document.additional],
                     TokenBudget(tokenLimit));
  }

  // ---------------------------------------------------------------------------------------
  // What is shown of a document
  // ---------------------------------------------------------------------------------------

  /** A text within a limit is shown as it is, any other is cut. */
  ghost predicate Capped(u: Unicode, text: string, max: int, capped: string) {
    if Estimate(u, text) <= max then capped == text else if max <= 0 then capped == [] else Cut(u, text, max, TRUNCATION_MARKER, capped)
  }

  lemma CapIsCapped(u: Unicode, text: string, max: nat)
    ensures Capped(u, text, max, MeasureOf(u).cap(text, max))
  {
    if max > 0 {
      CapForm(u, text, max, TRUNCATION_MARKER);
    }
  }

  /** The sections that are not empty, each behind a blank line. */
  function WithSections(start: string, sections: seq<string>): string
    decreases |sections|
  {
    if sections == [] then start
    else WithSections(if sections[0] == [] then start else start + (SEPARATOR + sections[0]), sections[1..])
  }

  ghost predicate CapsWhole(m: Measure) {
    forall text, max: nat :: m.cost(text) <= max ==> m.cap(text, max) == text
  }

  /** The first `k` sections are shown whole; the next one, if there is one, does not fit behind them and is cut to
      what is left for it. */
  ghost predicate SectionsStop(m: Measure, start: string, sections: seq<string>, max: nat, k: nat, rest: string) {
    && k <= |sections|
    && (k == |sections| ==> rest == [])
    && (k < |sections| ==>
          var left := max - m.cost(WithSections(start, sections[..k])) - m.cost(SEPARATOR);
          && sections[k] != [] && m.cost(sections[k]) > left
          && rest == if left <= 0 then [] else SEPARATOR + m.cap(sections[k], left))
  }

  ghost predicate ShowsSections(m: Measure, start: string, sections: seq<string>, max: nat, output: string) {
    exists k: nat, rest :: k <= |sections| && output == WithSections(start, sections[..k]) + rest
                           && SectionsStop(m, start, sections, max, k, rest)
  }

  lemma FirstSection(start: string, sections: seq<string>, k: nat)
    requires 0 < k <= |sections|
    ensures WithSections(start, sections[..k])
         == WithSections(if sections[0] == [] then start else start + (SEPARATOR + sections[0]), sections[1..][..k - 1])
  {
    assert sections[..k][1..] == sections[1..][..k - 1];
  }

  lemma {:induction false} SectionsShown(m: Measure, sections: seq<string>, max: nat, start: string) returns (k: nat, rest: string)
    requires CapsWhole(m) && forall text :: text != [] ==> m.cost(text) > 0
    ensures SectionsStop(m, start, sections, max, k, rest)
    ensures AddSections(m, sections, max, start) == WithSections(start, sections[..k]) + rest
    decreases |sections|
  {
    k, rest := 0, [];
    if sections == [] {
      Nothing(start);
    } else {
      var added := AddSection(m, sections[0], max, start);
      if added.more {
        k, rest := SectionsShown(m, sections[1..], max, added.output);
        k := k + 1;
        FirstSection(start, sections, k);
      } else {
        var left := max - m.cost(start) - m.cost(SEPARATOR);
        if left > 0 {
          rest := SEPARATOR + m.cap(sections[0], left);
        } else {
          Nothing(start);
        }
      }
    }
  }

  lemma {:induction false} SomethingCosts(u: Unicode, text: string)
    requires text != []
    ensures Estimate(u, text) > 0
  {
    var n := UnitLength(Lex(u), text);
    assert Charge(u, text[..n]) > 0;
  }

  lemma MeasureCaps(u: Unicode)
    ensures CapsWhole(MeasureOf(u)) && forall text :: text != [] ==> MeasureOf(u).cost(text) > 0
  {
    forall text, max: nat | Estimate(u, text) <= max
      ensures MeasureOf(u).cap(text, max) == text
    {
      CapFits(u, text, max, TRUNCATION_MARKER);
    }
    forall text | text != []
      ensures MeasureOf(u).cost(text) > 0
    {
      SomethingCosts(u, text);
    }
  }

  /** What is shown of a document that is framed here: its prefix, its text, and as many of its sections as fit. Where
      something does not fit, it is cut and nothing follows. */
  ghost predicate Shows(u: Unicode, prefix: string, text: string, sections: seq<string>, max: nat, output: string) {
    if Estimate(u, prefix) >= max then Capped(u, prefix, max, output)
    else if Estimate(u, text) > max - Estimate(u, prefix) then
      exists cut :: output == prefix + cut && Capped(u, text, max - Estimate(u, prefix), cut)
    else ShowsSections(MeasureOf(u), prefix + text, sections, max, output)
  }

  lemma PrefixedTextShows(u: Unicode, prefix: string, text: string, sections: seq<string>, max: nat)
    ensures Shows(u, prefix, text, sections, max, PrefixedText(MeasureOf(u), prefix, text, sections, max))
  {
    CapIsCapped(u, prefix, max);
    if Estimate(u, prefix) < max {
      var budget := max - Estimate(u, prefix);
      CapIsCapped(u, text, budget);
      if Estimate(u, text) <= budget {
        MeasureCaps(u);
        var k, rest := SectionsShown(MeasureOf(u), sections, max, prefix + text);
      }
    }
  }

  /** What is shown of any document: a document that the daemon has framed as it is or not at all, any other as far as
      it fits. */
  lemma RecalledTextShows(u: Unicode, document: Option<Document>, tokenLimit: Numeric, requestedId: string)
    ensures var output, max := RecalledText(u, document, tokenLimit, requestedId), TokenBudget(tokenLimit);
            match document
            case None => Capped(u, NotFound(requestedId), max, output)
            case Some(Framed(text)) => if Estimate(u, text) <= max then output == text else Capped(u, HEADING + EXCEEDED, max, output)
            case Some(Unframed(_, _, text, concise, additional)) =>
              Shows(u, EvidencePrefix(document.value), text, [concise, additional], max, output)
  {
    CapIsCapped(u, NotFound(requestedId), TokenBudget(tokenLimit));
    CapIsCapped(u, HEADING + EXCEEDED, TokenBudget(tokenLimit));
    if document.Some? && document.value.Unframed? {
      PrefixedTextShows(u, EvidencePrefix(document.value), document.value.text,
                        [document.value.concise, document.value.additional], TokenBudget(tokenLimit));
    }
  }

  // ---------------------------------------------------------------------------------------
  // Gathered evidence
  // ---------------------------------------------------------------------------------------

  /** A piece of evidence: the JSON text of its metadata and its document. */
  datatype Evidence = Evidence(metadata: string, document: Option<Document>, recallId: string)

  function EvidenceText(u: Unicode, tokenLimit: Numeric, evidence: Evidence): string {
    evidence.metadata + "\n" + RecalledText(u, evidence.document, tokenLimit, evidence.recallId)
  }

  function EvidenceTexts(u: Unicode, tokenLimit: Numeric, evidence: seq<Evidence>): (texts: seq<string>)
    ensures |texts| == |evidence|
    ensures forall i :: 0 <= i < |evidence| ==> texts[i] == EvidenceText(u, tokenLimit, evidence[i])
  {
    seq(|evidence|, i requires 0 <= i < |evidence| => EvidenceText(u, tokenLimit, evidence[i]))
  }

  /** The header and the first texts, separated by blank lines. */
  function Listing(header: string, texts: seq<string>): string {
    if texts == [] then header else Listing(header, texts[..|texts| - 1]) + SEPARATOR + texts[|texts| - 1]
  }

  function ListingFits(cost: string -> nat, header: string, texts: seq<string>, maxTokens: nat): nat -> bool {
    (n: nat) => n <= |texts| && cost(Listing(header, texts[..n])) <= maxTokens
  }

  function Notice(shown: nat, count: nat): string {
    "\n\nDisplayed " + Decimal(shown) + "/" + Decimal(count)
    + " gathered evidence record(s); " + "presentation token bound reached."
  }

  /** The listing of as many texts as fit, and a notice if some do not and it still fits. */
  function BoundedListing(cost: string -> nat, header: string, texts: seq<string>, maxTokens: nat): string {
    var shown := GreedyFrom(ListingFits(cost, header, texts, maxTokens), 0, |texts|);
    var listing := Listing(header, texts[..shown]);
    if shown < |texts| && cost(listing + Notice(shown, |texts|)) <= maxTokens then listing + Notice(shown, |texts|) else listing
  }

  /** `header` holds the heading, the status and the notices that apply. */
  function GatherText(u: Unicode, header: string, evidence: seq<Evidence>, tokenLimit: Numeric): string {
    var maxTokens := TokenBudget(tokenLimit);
    if Estimate(u, header) > maxTokens then CapText(u, header, tokenLimit)
    else BoundedListing((text: string) => Estimate(u, text), header, EvidenceTexts(u, tokenLimit, evidence), maxTokens)
  }

  method FormatGatherResults(u: Unicode, header: string, evidence: seq<Evidence>, tokenLimit: Numeric) returns (text: string)
    ensures text == GatherText(u, header, evidence, tokenLimit)
    ensures Estimate(u, text) <= TokenBudget(tokenLimit)
  {
    GatherTextFits(u, header, evidence, tokenLimit);
    var maxTokens := TokenBudget(tokenLimit);
    var headerTokens := EstimateModelVisibleTokens(u, header);
    if headerTokens > maxTokens {
      return CapText(u, header, tokenLimit);
    }
    text := ListEvidence((text: string) => Estimate(u, text), header, EvidenceTexts(u, tokenLimit, evidence), maxTokens);
  }

  method ListEvidence(cost: string -> nat, header: string, texts: seq<string>, maxTokens: nat) returns (output: string)
    ensures output == BoundedListing(cost, header, texts, maxTokens)
  {
    ghost var fits := ListingFits(cost, header, texts, maxTokens);
    output := header;
    var shown := 0;
    while shown < |texts|
      invariant 0 <= shown <= |texts|
      invariant GreedyFrom(fits, 0, |texts|) == GreedyFrom(fits, shown, |texts|)
      invariant output == Listing(header, texts[..shown])
    {
      ListingSnoc(header, texts, shown);
      var candidate := output + SEPARATOR + texts[shown];
      if cost(candidate) > maxTokens {
        break;
      }
      output, shown := candidate, shown + 1;
    }
    if shown == |texts| {
      return output;
    }
    if cost(output + Notice(shown, |texts|)) <= maxTokens {
      output := output + Notice(shown, |texts|);
    }
  }

  lemma ListingSnoc(header: string, texts: seq<string>, n: nat)
    requires n < |texts|
    ensures Listing(header, texts[..n + 1]) == Listing(header, texts[..n]) + SEPARATOR + texts[n]
  {
    assert texts[..n + 1][..n] == texts[..n] && texts[..n + 1][n] == texts[n];
  }

  lemma BoundedListingFits(cost: string -> nat, header: string, texts: seq<string>, maxTokens: nat)
    requires cost(header) <= maxTokens
    ensures cost(BoundedListing(cost, header, texts, maxTokens)) <= maxTokens
  {
    assert texts[..0] == [];
  }

  /** Gathered evidence stays within its budget; if the header fits, the listing shows the first records
      whole, and as many as fit one after the other. */
  lemma GatherTextFits(u: Unicode, header: string, evidence: seq<Evidence>, tokenLimit: Numeric)
    ensures Estimate(u, GatherText(u, header, evidence, tokenLimit)) <= TokenBudget(tokenLimit)
  {
    CapFits(u, header, TokenBudget(tokenLimit), TRUNCATION_MARKER);
    if Estimate(u, header) <= TokenBudget(tokenLimit) {
      BoundedListingFits((text: string) => Estimate(u, text), header, EvidenceTexts(u, tokenLimit, evidence), TokenBudget(tokenLimit));
    }
  }

  lemma BoundedListingShows(cost: string -> nat, header: string, texts: seq<string>, maxTokens: nat) returns (shown: nat)
    ensures shown <= |texts| && Greedy(ListingFits(cost, header, texts, maxTokens), 0, shown, |texts|)
    ensures Listing(header, texts[..shown]) <= BoundedListing(cost, header, texts, maxTokens)
    ensures shown == |texts| ==> BoundedListing(cost, header, texts, maxTokens) == Listing(header, texts)
  {
    shown := GreedyFrom(ListingFits(cost, header, texts, maxTokens), 0, |texts|);
    GreedyStops(ListingFits(cost, header, texts, maxTokens), 0, |texts|);
    All(texts);
  }
}

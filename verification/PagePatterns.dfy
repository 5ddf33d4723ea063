/** Searching a text with a pattern, given by what it matches at each position: the first match, as
    `exec` finds it, and all matches that do not overlap, as `matchAll` does. */
module Matching {
  import opened Wrappers

  datatype Match<T> = Match(value: T, end: nat)

  type Pattern<T> = nat -> Option<Match<T>>

  function First<T>(at: Pattern<T>, i: nat, n: nat): Option<T>
    requires i <= n
    decreases n - i
  {
    if at(i).Some? then Some(at(i).value.value)
    else if i == n then None
    else First(at, i + 1, n)
  }

  function All<T>(at: Pattern<T>, i: nat, n: nat): seq<T>
    requires i <= n
    decreases n - i
  {
    if i == n then []
    else if at(i).Some? && i < at(i).value.end <= n then [at(i).value.value] + All(at, at(i).value.end, n)
    else All(at, i + 1, n)
  }

  /** Nothing matches from `i` up to `j`. */
  ghost predicate Silent<T>(at: Pattern<T>, i: nat, j: nat) {
    forall k: nat :: i <= k < j ==> at(k).None?
  }

  lemma {:induction false} FirstSilent<T>(at: Pattern<T>, i: nat, j: nat, n: nat)
    requires i <= j <= n && Silent(at, i, j)
    ensures First(at, i, n) == First(at, j, n)
    decreases j - i
  {
    if i < j {
      FirstSilent(at, i + 1, j, n);
    }
  }

  lemma {:induction false} AllSilent<T>(at: Pattern<T>, i: nat, j: nat, n: nat)
    requires i <= j <= n && Silent(at, i, j)
    ensures All(at, i, n) == All(at, j, n)
    decreases j - i
  {
    if i < j {
      AllSilent(at, i + 1, j, n);
    }
  }

  /** One match amid silence. */
  lemma AllOne<T>(at: Pattern<T>, i: nat, k: nat, match_: Match<T>, j: nat, n: nat)
    requires i <= k < match_.end <= j <= n
    requires Silent(at, i, k) && at(k) == Some(match_) && Silent(at, match_.end, j)
    ensures All(at, i, n) == [match_.value] + All(at, j, n)
  {
    AllSilent(at, i, k, n);
    AllSilent(at, match_.end, j, n);
  }
}

/** The two patterns with which `extensions/pi.ts` reads a printed traversal page, and what they find in
    a heading followed by lines. */
module PagePatterns {
  import opened Wrappers
  import opened Matching

  // ---------------------------------------------------------------------------------------
  // The patterns
  // ---------------------------------------------------------------------------------------

  /** `needle` stands in `text` at position `i`. */
  predicate StandsAt(text: string, needle: string, i: nat) {
    i + |needle| <= |text| && forall k :: 0 <= k < |needle| ==> text[i + k] == needle[k]
  }

  /** The first quote at or after `i`, or the length. */
  function NextQuote(text: string, i: nat): (j: nat)
    requires i <= |text|
    ensures i <= j <= |text|
    ensures j < |text| ==> text[j] == '"'
    ensures forall k :: i <= k < j ==> text[k] != '"'
    decreases |text| - i
  {
    if i == |text| || text[i] == '"' then i else NextQuote(text, i + 1)
  }

  const CONTINUE_WORDS := "continue with " + "context_window_traverse " + "using id="
  const CONTINUE := CONTINUE_WORDS + ['"']
  const DIRECTION := "\" and direction=\""
  const BEFORE := "before\""
  const AFTER := "after\""
  const ID_KEY := "\"id\":\""

  datatype Direction = Before | After

  datatype Continuation = Continuation(id: string, direction: Direction)

  /** The continuation pattern, tried at position `i`: the fixed text, a non-empty stretch without
      quotes, the fixed text before the direction, and a closed direction. */
  function ContinuationAt(text: string, i: nat): Option<Match<Continuation>> {
    if !StandsAt(text, CONTINUE, i) then None
    else
      var from := i + |CONTINUE|;
      var j := NextQuote(text, from);
      if j == from || !StandsAt(text, DIRECTION, j) then None
      else
        var k := j + |DIRECTION|;
        if StandsAt(text, BEFORE, k) then Some(Match(Continuation(text[from..j], Before), k + |BEFORE|))
        else if StandsAt(text, AFTER, k) then Some(Match(Continuation(text[from..j], After), k + |AFTER|))
        else None
  }

  /** The identifier pattern, tried at position `i`: the key, a non-empty stretch without quotes and
      its closing quote. */
  function IdAt(text: string, i: nat): Option<Match<string>> {
    if !StandsAt(text, ID_KEY, i) then None
    else
      var from := i + |ID_KEY|;
      var j := NextQuote(text, from);
      if from < j < |text| then Some(Match(text[from..j], j + 1)) else None
  }

  /** `exec` of the continuation pattern. */
  function Exec(text: string): Option<Continuation> {
    First((i: nat) => ContinuationAt(text, i), 0, |text|)
  }

  /** `matchAll` of the identifier pattern. */
  function Ids(text: string): seq<string> {
    All((i: nat) => IdAt(text, i), 0, |text|)
  }

  // ---------------------------------------------------------------------------------------
  // Quotes the patterns need
  // ---------------------------------------------------------------------------------------

  ghost predicate NoQuote(text: string) {
    forall i :: 0 <= i < |text| ==> text[i] != '"'
  }

  /** A quote after an equals sign and before the first letter of a direction: a continuation has one
      at its end. */
  ghost predicate DirectionQuote(text: string, d: nat) {
    0 < d < |text| - 1 && text[d] == '"' && text[d - 1] == '=' && (text[d + 1] == 'b' || text[d + 1] == 'a')
  }

  /** A quote after a `d` and before a colon: an identifier match has one in fourth place. */
  ghost predicate KeyQuote(text: string, d: nat) {
    0 < d < |text| - 1 && text[d] == '"' && text[d - 1] == 'd' && text[d + 1] == ':'
  }

  ghost predicate NoDirectionQuote(text: string) {
    forall d: nat :: !DirectionQuote(text, d)
  }

  ghost predicate NoKeyQuote(text: string, from: int, until: int) {
    forall d: nat :: from <= d < until ==> !KeyQuote(text, d)
  }

  lemma DirectionEnds(text: string, j: nat)
    requires StandsAt(text, DIRECTION, j)
    requires StandsAt(text, BEFORE, j + |DIRECTION|) || StandsAt(text, AFTER, j + |DIRECTION|)
    ensures DirectionQuote(text, j + 16)
  {
    assert DIRECTION[16] == '"' && DIRECTION[15] == '=';
    assert BEFORE[0] == 'b' && AFTER[0] == 'a';
  }

  lemma ContinuationNeedsQuotes(text: string, i: nat)
    requires ContinuationAt(text, i).Some?
    ensures i + |CONTINUE| <= |text| && text[i + |CONTINUE| - 1] == '"'
    ensures exists d: nat :: DirectionQuote(text, d)
  {
    assert text[i + (|CONTINUE| - 1)] == CONTINUE[|CONTINUE| - 1];
    DirectionEnds(text, NextQuote(text, i + |CONTINUE|));
  }

  lemma IdNeedsQuote(text: string, i: nat)
    requires StandsAt(text, ID_KEY, i)
    ensures KeyQuote(text, i + 3)
  {
    assert ID_KEY[2] == 'd' && ID_KEY[3] == '"' && ID_KEY[4] == ':';
  }

  lemma NoIdWithoutQuote(text: string, i: nat, until: nat)
    requires NoKeyQuote(text, i + 3, until + 3)
    ensures forall k: nat :: i <= k < until ==> IdAt(text, k) == None
  {
    forall k: nat | i <= k < until
      ensures IdAt(text, k) == None
    {
      if StandsAt(text, ID_KEY, k) {
        IdNeedsQuote(text, k);
      }
    }
  }

  // ---------------------------------------------------------------------------------------
  // Concatenations
  // ---------------------------------------------------------------------------------------

  /** Neither end of the text is a quote. */
  ghost predicate OpenEnds(text: string) {
    text != [] ==> text[0] != '"' && text[|text| - 1] != '"'
  }

  lemma QuotesConcat(a: string, b: string, d: nat)
    requires OpenEnds(a) && OpenEnds(b)
    ensures DirectionQuote(a + b, d) ==> DirectionQuote(a, d) || (d >= |a| && DirectionQuote(b, d - |a|))
    ensures KeyQuote(a + b, d) ==> KeyQuote(a, d) || (d >= |a| && KeyQuote(b, d - |a|))
  {
  }

  lemma OpenEndsConcat(a: string, b: string)
    requires OpenEnds(a) && OpenEnds(b)
    ensures OpenEnds(a + b)
    ensures NoDirectionQuote(a) && NoDirectionQuote(b) ==> NoDirectionQuote(a + b)
  {
    forall d: nat
      ensures DirectionQuote(a + b, d) ==> DirectionQuote(a, d) || (d >= |a| && DirectionQuote(b, d - |a|))
    {
      QuotesConcat(a, b, d);
    }
  }

  lemma StandsParts(text: string, a: string, b: string, i: nat)
    requires StandsAt(text, a + b, i)
    ensures StandsAt(text, a, i) && StandsAt(text, b, i + |a|)
  {
    assert forall k :: 0 <= k < |a| ==> (a + b)[k] == a[k];
    forall k | 0 <= k < |b|
      ensures text[i + |a| + k] == b[k]
    {
      assert text[i + (|a| + k)] == (a + b)[|a| + k];
    }
  }

  lemma StandsWithin(text: string, part: string, needle: string, i: nat, k: nat)
    requires StandsAt(text, part, i) && StandsAt(part, needle, k)
    ensures StandsAt(text, needle, i + k)
  {
    forall m | 0 <= m < |needle|
      ensures text[i + k + m] == needle[m]
    {
      assert part[k + m] == needle[m];
    }
  }

  lemma StandsSlice(text: string, part: string, i: nat)
    requires StandsAt(text, part, i)
    ensures text[i..i + |part|] == part
  {
  }

  lemma KeyQuoteWithin(text: string, part: string, r: nat, d: nat)
    requires StandsAt(text, part, r) && OpenEnds(part)
    requires r <= d < r + |part|
    ensures KeyQuote(text, d) ==> KeyQuote(part, d - r)
  {
    var k := d - r;
    assert text[r + k] == part[k];
    assert k > 0 ==> text[r + (k - 1)] == part[k - 1];
    assert k + 1 < |part| ==> text[r + (k + 1)] == part[k + 1];
  }

  // ---------------------------------------------------------------------------------------
  // Lines
  // ---------------------------------------------------------------------------------------

  /** A displayed result: its identifier and the text of its record. */
  datatype Line = Line(id: string, text: string)

  /** The texts, one on a line. */
  function LinesText(lines: seq<Line>): string {
    if lines == [] then []
    else if |lines| == 1 then lines[0].text
    else lines[0].text + ['\n'] + LinesText(lines[1..])
  }

  /** The record opens with its identifier, closed by the first quote behind it. */
  ghost predicate Opens(line: Line) {
    && 8 + |line.id| <= |line.text|
    && line.id != [] && NoQuote(line.id)
    && line.text[0] == '{' && StandsAt(line.text, ID_KEY, 1)
    && StandsAt(line.text, line.id, 7) && line.text[7 + |line.id|] == '"'
  }

  /** Behind that, it offers nothing to either pattern. */
  ghost predicate Quiet(text: string) {
    OpenEnds(text) && NoDirectionQuote(text) && NoKeyQuote(text, 5, |text|)
  }

  ghost predicate Regular(line: Line) {
    Opens(line) && Quiet(line.text)
  }

  ghost predicate AllRegular(lines: seq<Line>) {
    forall i :: 0 <= i < |lines| ==> Regular(lines[i])
  }

  function IdsOf(lines: seq<Line>): seq<string> {
    if lines == [] then [] else [lines[0].id] + IdsOf(lines[1..])
  }

  lemma NewLineEnds()
    ensures OpenEnds(['\n']) && NoDirectionQuote(['\n'])
  {
  }

  lemma {:induction false} LinesQuotes(lines: seq<Line>)
    requires AllRegular(lines)
    ensures OpenEnds(LinesText(lines)) && NoDirectionQuote(LinesText(lines))
    ensures lines != [] ==> StandsAt(LinesText(lines), ['{', '"', 'i'], 0)
  {
    if lines != [] {
      assert Regular(lines[0]);
      var first := lines[0].text;
      LineOpens(lines[0]);
      if |lines| > 1 {
        var rest := LinesText(lines[1..]);
        LinesQuotes(lines[1..]);
        NewLineEnds();
        OpenEndsConcat(first, ['\n']);
        OpenEndsConcat(first + ['\n'], rest);
        assert forall k :: 0 <= k < |first| ==> (first + ['\n'] + rest)[k] == first[k];
      }
    }
  }

  lemma LineOpens(line: Line)
    requires Opens(line)
    ensures StandsAt(line.text, ['{', '"', 'i'], 0)
  {
    assert line.text[1 + 0] == ID_KEY[0] == '"' && line.text[1 + 1] == ID_KEY[1] == 'i';
  }

  // ---------------------------------------------------------------------------------------
  // Reading the lines
  // ---------------------------------------------------------------------------------------

  lemma NextQuoteIs(text: string, i: nat, j: nat)
    requires i <= j < |text|
    requires text[j] == '"' && forall k :: i <= k < j ==> text[k] != '"'
    ensures NextQuote(text, i) == j
  {
  }

  lemma QuoteBehind(text: string, id: string, from: nat)
    requires NoQuote(id) && StandsAt(text, id, from)
    requires from + |id| < |text| && text[from + |id|] == '"'
    ensures NextQuote(text, from) == from + |id| && text[from..from + |id|] == id
  {
    forall k | from <= k < from + |id|
      ensures text[k] != '"'
    {
      assert text[from + (k - from)] == id[k - from];
    }
    NextQuoteIs(text, from, from + |id|);
    StandsSlice(text, id, from);
  }

  /** At a line, the pattern matches its identifier. */
  lemma LineYields(text: string, line: Line, r: nat)
    requires Opens(line) && StandsAt(text, line.text, r)
    ensures r + 8 + |line.id| <= |text| && text[r] == '{'
    ensures IdAt(text, r) == None && IdAt(text, r + 1) == Some(Match(line.id, r + 8 + |line.id|))
  {
    assert text[r + 0] == line.text[0];
    NotAtBrace(text, r);
    StandsWithin(text, line.text, ID_KEY, r, 1);
    StandsWithin(text, line.text, line.id, r, 7);
    assert text[r + (7 + |line.id|)] == line.text[7 + |line.id|];
    QuoteBehind(text, line.id, r + 7);
  }

  lemma NotAtBrace(text: string, r: nat)
    requires r < |text| && text[r] == '{'
    ensures !StandsAt(text, ID_KEY, r)
  {
    assert ID_KEY[0] == '"' && text[r + 0] != ID_KEY[0];
  }

  lemma PartQuiet(text: string, part: string, r: nat)
    requires Quiet(part) && StandsAt(text, part, r)
    ensures NoKeyQuote(text, r + 5, r + |part|)
  {
    forall d: nat | r + 5 <= d < r + |part|
      ensures !KeyQuote(text, d)
    {
      KeyQuoteWithin(text, part, r, d);
    }
  }

  /** `at` is the identifier pattern on `text`. */
  ghost predicate Tries(at: Pattern<string>, text: string) {
    forall i: nat {:trigger IdAt(text, i)} :: at(i) == IdAt(text, i)
  }

  lemma TriesSilent(at: Pattern<string>, text: string, i: nat, middle: nat, stop: nat)
    requires Tries(at, text)
    requires NoKeyQuote(text, i + 3, middle) && NoKeyQuote(text, middle, stop + 3)
    ensures Silent(at, i, stop)
  {
    assert NoKeyQuote(text, i + 3, stop + 3);
    NoIdWithoutQuote(text, i, stop);
    forall k: nat | i <= k < stop
      ensures at(k).None?
    {
      assert IdAt(text, k) == None;
    }
  }

  /** A line contributes its identifier and nothing else. */
  lemma LineIds(at: Pattern<string>, text: string, line: Line, r: nat, stop: nat)
    requires Tries(at, text)
    requires Regular(line) && StandsAt(text, line.text, r)
    requires r + |line.text| <= stop <= |text| && NoKeyQuote(text, r + |line.text|, stop + 3)
    ensures All(at, r, |text|) == [line.id] + All(at, stop, |text|)
  {
    LineYields(text, line, r);
    PartQuiet(text, line.text, r);
    TriesSilent(at, text, r + 8 + |line.id|, r + |line.text|, stop);
    AllOne(at, r, r + 1, Match(line.id, r + 8 + |line.id|), stop, |text|);
  }

  /** No key quote hides where a line starts. */
  lemma LineStart(text: string, lines: string, r: nat)
    requires 0 < r && StandsAt(text, lines, r) && text[r - 1] != '"'
    requires StandsAt(lines, ['{', '"', 'i'], 0)
    ensures NoKeyQuote(text, r - 1, r + 3)
  {
    StandsWithin(text, lines, ['{', '"', 'i'], r, 0);
    assert text[r + 0] == ['{', '"', 'i'][0];
    assert text[r + 1] == ['{', '"', 'i'][1];
    assert text[r + 2] == ['{', '"', 'i'][2];
  }

  /** The identifiers read from the lines are those of the lines, in order. */
  lemma {:induction false} LinesIds(at: Pattern<string>, text: string, lines: seq<Line>, r: nat)
    requires Tries(at, text) && AllRegular(lines)
    requires StandsAt(text, LinesText(lines), r) && r + |LinesText(lines)| == |text|
    ensures All(at, r, |text|) == IdsOf(lines)
    decreases |lines|
  {
    if |lines| == 1 {
      LineIds(at, text, lines[0], r, |text|);
      assert lines[1..] == [];
    } else if |lines| > 1 {
      var first, rest := lines[0].text, LinesText(lines[1..]);
      var next := r + |first| + 1;
      StandsParts(text, first + ['\n'], rest, r);
      StandsParts(text, first, ['\n'], r);
      assert text[r + |first| + 0] == ['\n'][0];
      LinesQuotes(lines[1..]);
      LineStart(text, rest, next);
      LineIds(at, text, lines[0], r, next);
      LinesIds(at, text, lines[1..], next);
    }
  }

  // ---------------------------------------------------------------------------------------
  // Reading a page
  // ---------------------------------------------------------------------------------------

  /** A heading that ends in a line break and offers nothing to the identifier pattern. */
  ghost predicate Heading(head: string) {
    head != [] && head[|head| - 1] == '\n' && OpenEnds(head) && NoKeyQuote(head, 0, |head|)
  }

  /** From a page with lines, exactly the identifiers of the lines are read. */
  lemma PageIds(head: string, lines: seq<Line>)
    requires Heading(head) && AllRegular(lines) && lines != []
    ensures Ids(head + LinesText(lines)) == IdsOf(lines)
  {
    var text, rest := head + LinesText(lines), LinesText(lines);
    var at := (i: nat) => IdAt(text, i);
    StandsParts(text, head, rest, 0);
    LinesQuotes(lines);
    assert text[0 + (|head| - 1)] == head[|head| - 1];
    LineStart(text, rest, |head|);
    HeadingQuiet(text, head);
    TriesSilent(at, text, 0, |head|, |head|);
    AllSilent(at, 0, |head|, |text|);
    LinesIds(at, text, lines, |head|);
  }

  /** From a text without quotes nothing is read. */
  lemma NothingRead(text: string)
    requires NoQuote(text)
    ensures Exec(text) == None && Ids(text) == []
  {
    PageEnds(text);
    var at := (i: nat) => IdAt(text, i);
    TriesSilent(at, text, 0, |text|, |text|);
    AllSilent(at, 0, |text|, |text|);
  }

  lemma HeadingQuiet(text: string, head: string)
    requires Heading(head) && StandsAt(text, head, 0)
    ensures NoKeyQuote(text, 0, |head|)
  {
    forall d: nat | d < |head|
      ensures !KeyQuote(text, d)
    {
      KeyQuoteWithin(text, head, 0, d);
    }
  }

  /** No colon stands at the front or behind a quote: such texts can be put together without giving the
      identifier pattern anything. */
  ghost predicate Calm(text: string) {
    text != [] && text[0] != ':' && forall i :: 0 <= i < |text| - 1 && text[i] == '"' ==> text[i + 1] != ':'
  }

  lemma CalmConcat(a: string, b: string)
    requires Calm(a) && Calm(b)
    ensures Calm(a + b)
  {
    assert forall i :: 0 <= i < |a| ==> (a + b)[i] == a[i];
    assert forall i :: |a| <= i < |a + b| ==> (a + b)[i] == b[i - |a|];
  }

  lemma CalmNoQuote(text: string)
    requires NoQuote(text) && text != [] && text[0] != ':'
    ensures Calm(text)
  {
  }

  lemma CalmHeading(head: string)
    requires Calm(head) && head[|head| - 1] == '\n' && head[0] != '"'
    ensures Heading(head)
  {
  }

  /** A page without the quote a continuation ends in does not continue. */
  lemma PageEnds(text: string)
    requires NoDirectionQuote(text)
    ensures Exec(text) == None
  {
    var at := (i: nat) => ContinuationAt(text, i);
    forall k: nat | k <= |text|
      ensures at(k).None?
    {
      if ContinuationAt(text, k).Some? {
        ContinuationNeedsQuotes(text, k);
      }
    }
    FirstSilent(at, 0, |text|, |text|);
  }

  /** The four texts stand one after the other. */
  ghost predicate FourStand(text: string, at: nat, a: string, b: string, c: string, d: string) {
    && StandsAt(text, a, at)
    && StandsAt(text, b, at + |a|)
    && StandsAt(text, c, at + |a| + |b|)
    && StandsAt(text, d, at + |a| + |b| + |c|)
  }

  /** From a page whose first quote belongs to a continuation, that continuation is read. */
  lemma PageContinues(text: string, front: string, id: string, direction: Direction)
    requires NoQuote(front) && StandsAt(text, front, 0)
    requires NoQuote(id) && id != []
    requires FourStand(text, |front|, CONTINUE, id, DIRECTION, if direction.Before? then BEFORE else AFTER)
    ensures Exec(text) == Some(Continuation(id, direction))
  {
    var at := (i: nat) => ContinuationAt(text, i);
    ContinuationMatches(text, |front|, id, direction);
    QuotesBefore(text, front, |front|);
    forall k: nat | k < |front|
      ensures at(k).None?
    {
      if ContinuationAt(text, k).Some? {
        ContinuationNeedsQuotes(text, k);
      }
    }
    FirstSilent(at, 0, |front|, |text|);
  }

  lemma ContinuationMatches(text: string, at: nat, id: string, direction: Direction)
    requires NoQuote(id) && id != []
    requires FourStand(text, at, CONTINUE, id, DIRECTION, if direction.Before? then BEFORE else AFTER)
    ensures at <= |text|
    ensures ContinuationAt(text, at).Some? && ContinuationAt(text, at).value.value == Continuation(id, direction)
  {
    var from := at + |CONTINUE|;
    assert text[from + |id| + 0] == DIRECTION[0] == '"';
    QuoteBehind(text, id, from);
    TailsDiffer(text, from + |id| + |DIRECTION|);
  }

  lemma TailsDiffer(text: string, k: nat)
    ensures !(StandsAt(text, BEFORE, k) && StandsAt(text, AFTER, k))
  {
    assert BEFORE[0] == 'b' && AFTER[0] == 'a';
    assert StandsAt(text, BEFORE, k) ==> text[k + 0] == BEFORE[0];
  }

  lemma QuotesBefore(text: string, front: string, at: nat)
    requires NoQuote(front) && at == |front| && StandsAt(text, front, 0)
    requires StandsAt(text, CONTINUE, at)
    ensures forall q :: 0 <= q < at + |CONTINUE| - 1 && q < |text| ==> text[q] != '"'
  {
    ContinueQuotes();
    forall q | 0 <= q < at + |CONTINUE| - 1
      ensures text[q] != '"'
    {
      if q < at {
        assert text[0 + q] == front[q];
      } else {
        assert text[at + (q - at)] == CONTINUE[q - at];
      }
    }
  }

  lemma NoQuoteConcat(a: string, b: string)
    requires NoQuote(a) && NoQuote(b)
    ensures NoQuote(a + b)
  {
  }

  lemma ContinueQuotes()
    ensures forall k :: 0 <= k < |CONTINUE| - 1 ==> CONTINUE[k] != '"'
  {
    assert NoQuote("continue with ") && NoQuote("context_window_traverse ") && NoQuote("using id=");
    NoQuoteConcat("continue with ", "context_window_traverse ");
    NoQuoteConcat("continue with " + "context_window_traverse ", "using id=");
  }
}

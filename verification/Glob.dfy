/** The greedy wildcard matcher of `src/config.js`, proved equivalent to the declarative meaning
    of a pattern: every `*` stands for any sequence of tokens. */
module Glob {
  import opened CaseFold
  import opened LiteralSearch
  import opened Sequences

  const STAR: CodePoint := 42

  // ---------------------------------------------------------------------------------------
  // What a pattern means
  // ---------------------------------------------------------------------------------------

  datatype Element = Any | One(token: Token)

  function Elements(tables: CaseTables, pattern: Text): seq<Element> {
    if pattern == [] then []
    else [if pattern[0] == STAR then Any else One(tables.Fold(pattern[0]))] + Elements(tables, pattern[1..])
  }

  ghost predicate Matches(elements: seq<Element>, value: seq<Token>) {
    if elements == [] then value == []
    else match elements[0]
      case Any => exists k :: 0 <= k <= |value| && Matches(elements[1..], value[k..])
      case One(token) => value != [] && value[0] == token && Matches(elements[1..], value[1..])
  }

  /** The case of ASCII letters makes no difference, neither in the pattern nor in the value. */
  lemma {:induction false} ElementsIgnoreCase(tables: CaseTables, pattern: Text, other: Text)
    requires MapsAscii(tables) && SameLetters(pattern, other)
    ensures Elements(tables, pattern) == Elements(tables, other)
    decreases |pattern|
  {
    if pattern != [] {
      ElementsIgnoreCase(tables, pattern[1..], other[1..]);
      if pattern[0] != other[0] {
        AsciiFolds(tables, pattern[0], other[0]);
      }
    }
  }

  lemma MatchesIgnoresCase(tables: CaseTables, pattern: Text, otherPattern: Text, value: Text, otherValue: Text)
    requires MapsAscii(tables) && SameLetters(pattern, otherPattern) && SameLetters(value, otherValue)
    ensures Matches(Elements(tables, pattern), tables.FoldAll(value))
       <==> Matches(Elements(tables, otherPattern), tables.FoldAll(otherValue))
  {
    ElementsIgnoreCase(tables, pattern, otherPattern);
    FoldsAlikeIff(tables, value, otherValue);
  }

  /** A pattern without wildcards matches ASCII text if and only if it is that text up to case. */
  lemma AsciiNameMatches(tables: CaseTables, pattern: Text, value: Text)
    requires MapsAscii(tables) && AsciiText(pattern) && AsciiText(value) && STAR !in pattern
    ensures Matches(Elements(tables, pattern), tables.FoldAll(value)) <==> SameLetters(pattern, value)
  {
    NoStarMatches(tables, pattern, tables.FoldAll(value));
    FoldsAlikeIff(tables, pattern, value);
  }

  /** Every text matches itself as a pattern. */
  lemma {:induction false} MatchesItself(tables: CaseTables, text: Text)
    ensures Matches(Elements(tables, text), tables.FoldAll(text))
  {
    if text != [] {
      MatchesItself(tables, text[1..]);
      assert tables.FoldAll(text)[1..] == tables.FoldAll(text[1..]);
    }
  }

  // ---------------------------------------------------------------------------------------
  // Splitting at the stars
  // ---------------------------------------------------------------------------------------

  /** `pattern.split("*")`. */
  function Split(pattern: Text): (pieces: seq<Text>)
    ensures |pieces| > 0
  {
    if pattern == [] then [[]]
    else
      var rest := Split(pattern[1..]);
      if pattern[0] == STAR then [[]] + rest else [[pattern[0]] + rest[0]] + rest[1..]
  }

  function FoldPieces(tables: CaseTables, pieces: seq<Text>): (folded: seq<seq<Token>>)
    ensures |folded| == |pieces|
  {
    if pieces == [] then [] else [tables.FoldAll(pieces[0])] + FoldPieces(tables, pieces[1..])
  }

  function NonEmpty<T>(pieces: seq<seq<T>>): seq<seq<T>> {
    if pieces == [] then []
    else if pieces[0] == [] then NonEmpty(pieces[1..])
    else [pieces[0]] + NonEmpty(pieces[1..])
  }

  function TotalLength<T>(pieces: seq<seq<T>>): nat {
    if pieces == [] then 0 else |pieces[0]| + TotalLength(pieces[1..])
  }

  lemma {:induction false} NonEmptyConcat<T>(left: seq<seq<T>>, right: seq<seq<T>>)
    ensures NonEmpty(left + right) == NonEmpty(left) + NonEmpty(right)
  {
    if left == [] {
      assert left + right == right;
    } else {
      assert (left + right)[1..] == left[1..] + right;
      NonEmptyConcat(left[1..], right);
    }
  }

  lemma {:induction false} NonEmptyPieces<T>(pieces: seq<seq<T>>)
    ensures forall i :: 0 <= i < |NonEmpty(pieces)| ==> NonEmpty(pieces)[i] != []
    ensures TotalLength(NonEmpty(pieces)) == TotalLength(pieces)
    ensures |NonEmpty(pieces)| <= |pieces|
  {
    if pieces != [] {
      NonEmptyPieces(pieces[1..]);
      if pieces[0] != [] {
        assert NonEmpty(pieces)[1..] == NonEmpty(pieces[1..]);
      }
    }
  }

  lemma {:induction false} SplitShape(pattern: Text)
    ensures |Split(pattern)| > 1 <==> STAR in pattern
    ensures Split(pattern)[0] != [] <==> pattern != [] && pattern[0] != STAR
    ensures Split(pattern)[|Split(pattern)| - 1] != [] <==> pattern != [] && pattern[|pattern| - 1] != STAR
    ensures TotalLength(Split(pattern)) <= |pattern|
    ensures STAR !in pattern ==> Split(pattern) == [pattern]
  {
    if pattern != [] {
      SplitShape(pattern[1..]);
      var rest := Split(pattern[1..]);
      if pattern[0] == STAR {
        assert ([[]] + rest)[1..] == rest;
      } else {
        assert ([[pattern[0]] + rest[0]] + rest[1..])[1..] == rest[1..];
        assert pattern == [pattern[0]] + pattern[1..];
      }
    }
  }

  // ---------------------------------------------------------------------------------------
  // Pieces separated by stars
  // ---------------------------------------------------------------------------------------

  /** From position `i` on, `value` is `first`, then anything and the next piece, and so on to
      its end. */
  ghost predicate Chain(first: seq<Token>, rest: seq<seq<Token>>, value: seq<Token>, i: nat)
    decreases |rest|
  {
    && OccursAt(value, first, i)
    && if rest == [] then i + |first| == |value|
       else exists k: nat :: i + |first| <= k && Chain(rest[0], rest[1..], value, k)
  }

  /** One step of `Split`, after folding. */
  lemma FoldPiecesStep(tables: CaseTables, pattern: Text)
    requires pattern != []
    ensures var pieces, rest := FoldPieces(tables, Split(pattern)), FoldPieces(tables, Split(pattern[1..]));
            if pattern[0] == STAR then pieces[0] == [] && pieces[1..] == rest
            else pieces[0] == [tables.Fold(pattern[0])] + rest[0] && pieces[1..] == rest[1..]
  {
    var split := Split(pattern[1..]);
    if pattern[0] != STAR {
      FoldAllCons(tables, pattern[0], split[0]);
    }
  }

  lemma FoldAllCons(tables: CaseTables, c: CodePoint, rest: Text)
    ensures tables.FoldAll([c] + rest) == [tables.Fold(c)] + tables.FoldAll(rest)
  {
  }

  lemma {:induction false} FoldPiecesSnoc(tables: CaseTables, pieces: seq<Text>, last: Text)
    ensures FoldPieces(tables, pieces + [last]) == FoldPieces(tables, pieces) + [tables.FoldAll(last)]
  {
    if pieces == [] {
      Nothing([last]);
    } else {
      assert (pieces + [last])[1..] == pieces[1..] + [last];
      FoldPiecesSnoc(tables, pieces[1..], last);
      Associate([tables.FoldAll(pieces[0])], FoldPieces(tables, pieces[1..]), [tables.FoldAll(last)]);
    }
  }

  lemma {:induction false} SplitMatches(tables: CaseTables, pattern: Text, value: seq<Token>, i: nat)
    requires i <= |value|
    ensures var pieces := FoldPieces(tables, Split(pattern));
            Matches(Elements(tables, pattern), value[i..]) <==> Chain(pieces[0], pieces[1..], value, i)
    decreases |pattern|
  {
    var pieces := FoldPieces(tables, Split(pattern));
    if pattern == [] {
      assert pieces == [[]];
    } else {
      FoldPiecesStep(tables, pattern);
      var rest := FoldPieces(tables, Split(pattern[1..]));
      var elements := Elements(tables, pattern);
      assert elements[1..] == Elements(tables, pattern[1..]);
      if pattern[0] == STAR {
        forall k | i <= k <= |value|
          ensures Matches(elements[1..], value[k..]) <==> Chain(rest[0], rest[1..], value, k)
        {
          SplitMatches(tables, pattern[1..], value, k);
        }
        AnyStep(elements, rest, value, i);
        assert pieces[1..][0] == rest[0] && pieces[1..][1..] == rest[1..];
      } else {
        assert elements[0] == One(tables.Fold(pattern[0]));
        if i < |value| {
          SplitMatches(tables, pattern[1..], value, i + 1);
          assert value[i..][1..] == value[i + 1..];
        }
        OneStep(tables.Fold(pattern[0]), rest[0], rest[1..], value, i);
      }
    }
  }

  /** A star skips to any later position. */
  lemma AnyStep(elements: seq<Element>, rest: seq<seq<Token>>, value: seq<Token>, i: nat)
    requires i <= |value| && rest != []
    requires elements != [] && elements[0] == Any
    requires forall k :: i <= k <= |value| ==> (Matches(elements[1..], value[k..]) <==> Chain(rest[0], rest[1..], value, k))
    ensures Matches(elements, value[i..]) <==> Chain([], rest, value, i)
  {
    assert forall k :: 0 <= k <= |value| - i ==> value[i..][k..] == value[i + k..];
    if k: nat :| i <= k && Chain(rest[0], rest[1..], value, k) {
      assert value[i..][k - i..] == value[k..];
    }
  }

  /** A literal token at the head of the first piece consumes one token of the value. */
  lemma OneStep(token: Token, first: seq<Token>, rest: seq<seq<Token>>, value: seq<Token>, i: nat)
    ensures Chain([token] + first, rest, value, i)
       <==> i < |value| && value[i] == token && Chain(first, rest, value, i + 1)
  {
    if i + 1 + |first| <= |value| {
      assert value[i..i + 1 + |first|] == [value[i]] + value[i + 1..i + 1 + |first|];
    }
  }

  // ---------------------------------------------------------------------------------------
  // Greedy placement
  // ---------------------------------------------------------------------------------------

  /** The literals occur in order, without overlap, inside `value[start..end]`. */
  ghost predicate Placeable(literals: seq<seq<Token>>, value: seq<Token>, start: nat, end: int) {
    if literals == [] then start <= end
    else exists k: nat ::
      && start <= k
      && OccursAt(value, literals[0], k)
      && Placeable(literals[1..], value, k + |literals[0]|, end)
  }

  lemma {:induction false} PlaceableInterval(literals: seq<seq<Token>>, value: seq<Token>, start: nat, end: int)
    requires Placeable(literals, value, start, end)
    ensures start <= end
  {
    if literals != [] {
      var k: nat :| start <= k && OccursAt(value, literals[0], k)
                    && Placeable(literals[1..], value, k + |literals[0]|, end);
      PlaceableInterval(literals[1..], value, k + |literals[0]|, end);
    }
  }

  /** More room on the left never loses a placement. */
  lemma PlaceableWidens(literals: seq<seq<Token>>, value: seq<Token>, start: nat, later: nat, end: int)
    requires start <= later
    requires Placeable(literals, value, later, end)
    ensures Placeable(literals, value, start, end)
  {
  }

  /** The leftmost occurrence of the next literal never loses a match, and no occurrence
      means no match. */
  lemma GreedyChoice(literals: seq<seq<Token>>, value: seq<Token>, start: nat, end: int, position: int)
    requires literals != []
    requires position == -1 || position >= start
    requires position >= 0 ==>
               OccursAt(value, literals[0], position)
               && NoneBefore(value, literals[0], start, position + |literals[0]| - 1)
    requires position == -1 ==> NoneBefore(value, literals[0], start, end)
    ensures Placeable(literals, value, start, end)
       <==> position >= 0 && Placeable(literals[1..], value, position + |literals[0]|, end)
  {
    if Placeable(literals, value, start, end) {
      var k: nat :| start <= k && OccursAt(value, literals[0], k)
                    && Placeable(literals[1..], value, k + |literals[0]|, end);
      PlaceableInterval(literals[1..], value, k + |literals[0]|, end);
      assert position >= 0;
      assert position <= k;
      PlaceableWidens(literals[1..], value, position + |literals[0]|, k + |literals[0]|, end);
    }
  }

  /** Adjacent stars leave empty pieces, which can be dropped. */
  lemma {:induction false} EmptyPiecesDrop(literals: seq<seq<Token>>, value: seq<Token>, start: nat, end: nat)
    requires end <= |value|
    ensures Placeable(literals, value, start, end) <==> Placeable(NonEmpty(literals), value, start, end)
    decreases |literals|
  {
    if literals != [] {
      var rest := literals[1..];
      if literals[0] == [] {
        EmptyPiecesDrop(rest, value, start, end);
        if Placeable(literals, value, start, end) {
          var k: nat :| start <= k && OccursAt(value, [], k) && Placeable(rest, value, k, end);
          PlaceableWidens(rest, value, start, k, end);
        }
        if Placeable(rest, value, start, end) {
          PlaceableInterval(rest, value, start, end);
          assert OccursAt(value, literals[0], start);
        }
      } else {
        assert NonEmpty(literals)[0] == literals[0] && NonEmpty(literals)[1..] == NonEmpty(rest);
        forall k: nat | OccursAt(value, literals[0], k)
          ensures Placeable(rest, value, k + |literals[0]|, end)
             <==> Placeable(NonEmpty(rest), value, k + |literals[0]|, end)
        {
          EmptyPiecesDrop(rest, value, k + |literals[0]|, end);
        }
      }
    }
  }

  /** A chain of at least two pieces is its first piece in place, its last piece at the end, and
      the middle ones placed between the two. */
  lemma {:induction false} ChainDecomposes(first: seq<Token>, middle: seq<seq<Token>>, last: seq<Token>, value: seq<Token>, i: nat)
    requires |last| <= |value|
    ensures Chain(first, middle + [last], value, i)
       <==> && OccursAt(value, first, i)
            && OccursAt(value, last, |value| - |last|)
            && Placeable(middle, value, i + |first|, |value| - |last|)
    decreases |middle|
  {
    var end := |value| - |last|;
    var rest := middle + [last];
    if middle == [] {
      assert rest[0] == last && rest[1..] == [];
      assert Chain(last, [], value, end) <==> OccursAt(value, last, end);
    } else {
      assert rest[0] == middle[0] && rest[1..] == middle[1..] + [last];
      forall k: nat
        ensures Chain(rest[0], rest[1..], value, k)
           <==> && OccursAt(value, middle[0], k)
                && OccursAt(value, last, end)
                && Placeable(middle[1..], value, k + |middle[0]|, end)
      {
        ChainDecomposes(middle[0], middle[1..], last, value, k);
      }
    }
  }

  /** No chain ends in a piece longer than the value. */
  lemma {:induction false} ChainHoldsLast(first: seq<Token>, middle: seq<seq<Token>>, last: seq<Token>, value: seq<Token>, i: nat)
    requires Chain(first, middle + [last], value, i)
    ensures |last| <= |value|
    decreases |middle|
  {
    var rest := middle + [last];
    var k: nat :| i + |first| <= k && Chain(rest[0], rest[1..], value, k);
    if middle != [] {
      assert rest[0] == middle[0] && rest[1..] == middle[1..] + [last];
      ChainHoldsLast(middle[0], middle[1..], last, value, k);
    }
  }

  /** The literals of a pattern with a star: the anchored ends, empty when the pattern starts or
      ends with a star, and the ones in between. */
  datatype Frame = Frame(first: seq<Token>, middle: seq<seq<Token>>, last: seq<Token>)

  /** The value starts with the first literal, ends with the last one without overlap, and holds
      the middle ones in order between the two. */
  ghost predicate Anchored(frame: Frame, value: seq<Token>) {
    && OccursAt(value, frame.first, 0)
    && OccursAt(value, frame.last, |value| - |frame.last|)
    && |frame.first| <= |value| - |frame.last|
    && Placeable(frame.middle, value, |frame.first|, |value| - |frame.last|)
  }

  ghost function PiecesFrame(pieces: seq<seq<Token>>): Frame
    requires |pieces| > 1
  {
    Frame(pieces[0], NonEmpty(pieces[1..|pieces| - 1]), pieces[|pieces| - 1])
  }

  /** The whole decomposition the matcher relies on, in terms of the pattern itself. */
  lemma StarPatternDecompose(tables: CaseTables, pattern: Text, value: seq<Token>)
    requires STAR in pattern
    ensures var pieces := FoldPieces(tables, Split(pattern));
            |pieces| > 1 && (Matches(Elements(tables, pattern), value) <==> Anchored(PiecesFrame(pieces), value))
  {
    SplitShape(pattern);
    var pieces := FoldPieces(tables, Split(pattern));
    SplitMatches(tables, pattern, value, 0);
    All(value);
    Ends(pieces);
    ChainIsAnchored(pieces[0], pieces[1..|pieces| - 1], pieces[|pieces| - 1], value);
  }

  lemma ChainIsAnchored(first: seq<Token>, middle: seq<seq<Token>>, last: seq<Token>, value: seq<Token>)
    ensures Chain(first, middle + [last], value, 0) <==> Anchored(Frame(first, NonEmpty(middle), last), value)
  {
    if |last| <= |value| {
      var end := |value| - |last|;
      ChainDecomposes(first, middle, last, value, 0);
      EmptyPiecesDrop(middle, value, |first|, end);
      if Placeable(middle, value, |first|, end) {
        PlaceableInterval(middle, value, |first|, end);
      }
    } else if Chain(first, middle + [last], value, 0) {
      ChainHoldsLast(first, middle, last, value, 0);
    }
  }

  lemma {:induction false} NoStarMatches(tables: CaseTables, pattern: Text, value: seq<Token>)
    requires STAR !in pattern
    ensures Matches(Elements(tables, pattern), value) <==> tables.FoldAll(pattern) == value
  {
    SplitShape(pattern);
    SplitMatches(tables, pattern, value, 0);
    assert value[0..] == value;
    assert FoldPieces(tables, Split(pattern)) == [tables.FoldAll(pattern)];
    assert value[0..|value|] == value;
  }

  /** Folding keeps pieces empty or non-empty, so filtering before it is filtering after it. */
  lemma {:induction false} FilterBeforeFold(tables: CaseTables, pieces: seq<Text>)
    ensures FoldPieces(tables, NonEmpty(pieces)) == NonEmpty(FoldPieces(tables, pieces))
    ensures TotalLength(FoldPieces(tables, pieces)) == TotalLength(pieces)
  {
    if pieces != [] {
      FilterBeforeFold(tables, pieces[1..]);
      assert FoldPieces(tables, pieces)[1..] == FoldPieces(tables, pieces[1..]);
      assert FoldPieces(tables, pieces)[0] == tables.FoldAll(pieces[0]);
      if pieces[0] != [] {
        assert NonEmpty(pieces)[1..] == NonEmpty(pieces[1..]);
        assert FoldPieces(tables, NonEmpty(pieces)) == [tables.FoldAll(pieces[0])] + FoldPieces(tables, NonEmpty(pieces[1..]));
      }
    }
  }

  // ---------------------------------------------------------------------------------------
  // The matcher
  // ---------------------------------------------------------------------------------------

  /** `sameTokens`, stopping at the first difference. */
  method SameTokens(left: seq<Token>, right: seq<Token>) returns (same: bool, ghost comparisons: nat)
    ensures same <==> left == right
    ensures comparisons <= |left|
  {
    comparisons := 0;
    if |left| != |right| {
      return false, comparisons;
    }
    for index := 0 to |left|
      invariant left[..index] == right[..index]
      invariant comparisons == index
    {
      comparisons := comparisons + 1;
      if left[index] != right[index] {
        return false, comparisons;
      }
    }
    return true, comparisons;
  }

  /** `tokensAt`, stopping at the first difference. */
  method TokensAt(candidate: seq<Token>, literal: seq<Token>, start: int) returns (found: bool, ghost comparisons: nat)
    ensures found <==> OccursAt(candidate, literal, start)
    ensures comparisons <= |literal|
  {
    comparisons := 0;
    if start < 0 || start + |literal| > |candidate| {
      return false, comparisons;
    }
    for index := 0 to |literal|
      invariant candidate[start..start + index] == literal[..index]
      invariant comparisons == index
    {
      comparisons := comparisons + 1;
      if literal[index] != candidate[start + index] {
        assert candidate[start..start + |literal|][index] == candidate[start + index];
        return false, comparisons;
      }
      assert candidate[start..start + index + 1] == candidate[start..start + index] + [candidate[start + index]];
      assert literal[..index + 1] == literal[..index] + [literal[index]];
    }
    return true, comparisons;
  }

  /** `.map(simpleCaseFold)` over the pieces. */
  method FoldLiterals(folder: CaseFolder, pieces: seq<Text>) returns (literals: seq<seq<Token>>)
    requires folder.Valid()
    modifies folder`exceptions
    ensures folder.Valid()
    ensures literals == FoldPieces(folder.tables, pieces)
  {
    literals := [];
    for i := 0 to |pieces|
      invariant folder.Valid()
      invariant literals == FoldPieces(folder.tables, pieces[..i])
    {
      var literal := folder.SimpleCaseFold(pieces[i]);
      literals := literals + [literal];
      FoldPiecesSnoc(folder.tables, pieces[..i], pieces[i]);
      Grown(pieces, i);
    }
    assert pieces[..|pieces|] == pieces;
  }

  /** The unanchored literals, placed left to right, each at its leftmost occurrence. */
  method PlaceLiterals(literals: seq<seq<Token>>, candidate: seq<Token>, from: nat, end: nat)
    returns (placed: bool, ghost comparisons: nat)
    requires from <= end <= |candidate|
    requires forall i :: 0 <= i < |literals| ==> literals[i] != []
    ensures placed <==> Placeable(literals, candidate, from, end)
    ensures comparisons <= 3 * TotalLength(literals) + 3 * (end - from)
  {
    comparisons := 0;
    var start := from;
    for i := 0 to |literals|
      invariant from <= start <= end
      invariant Placeable(literals, candidate, from, end) <==> Placeable(literals[i..], candidate, start, end)
      invariant comparisons + 3 * TotalLength(literals[i..]) <= 3 * TotalLength(literals) + 3 * (start - from)
    {
      assert literals[i..][0] == literals[i] && literals[i..][1..] == literals[i + 1..];
      ghost var spent;
      var position;
      position, spent := LiteralPosition(candidate, literals[i], start, end);
      comparisons := comparisons + spent;
      GreedyChoice(literals[i..], candidate, start, end, position);
      if position < 0 {
        return false, comparisons;
      }
      start := position + |literals[i]|;
    }
    assert literals[|literals|..] == [];
    return start <= end, comparisons;
  }

  predicate Enough(literals: seq<seq<Token>>, anchoredStart: bool, anchoredEnd: bool) {
    |literals| >= (if anchoredStart then 1 else 0) + (if anchoredEnd then 1 else 0)
  }

  /** What `shift` and `pop` take from the filtered literals, and what they leave. */
  ghost function LiteralsFrame(literals: seq<seq<Token>>, anchoredStart: bool, anchoredEnd: bool): Frame
    requires Enough(literals, anchoredStart, anchoredEnd)
  {
    var rest := if anchoredStart then literals[1..] else literals;
    Frame(if anchoredStart then literals[0] else [],
          if anchoredEnd then rest[..|rest| - 1] else rest,
          if anchoredEnd then rest[|rest| - 1] else [])
  }

  /** The anchored literals of `globMatches`: the first at the start, the last at the end, without
      overlap. What is left lies in `candidate[start..end]`. */
  method TakeEnds(folded: seq<seq<Token>>, anchoredStart: bool, anchoredEnd: bool, candidate: seq<Token>)
    returns (anchored: bool, literals: seq<seq<Token>>, start: nat, end: nat, ghost comparisons: nat)
    requires Enough(folded, anchoredStart, anchoredEnd)
    ensures var frame := LiteralsFrame(folded, anchoredStart, anchoredEnd);
            && (anchored <==> && OccursAt(candidate, frame.first, 0)
                              && OccursAt(candidate, frame.last, |candidate| - |frame.last|)
                              && |frame.first| <= |candidate| - |frame.last|)
            && (anchored ==> literals == frame.middle && start == |frame.first| && end == |candidate| - |frame.last|)
            && comparisons <= |frame.first| + |frame.last|
  {
    literals, comparisons := folded, 0;
    start, end := 0, |candidate|;
    if anchoredStart {
      var prefix := literals[0];
      literals := literals[1..];
      anchored, comparisons := TokensAt(candidate, prefix, 0);
      if !anchored {
        return;
      }
      start := |prefix|;
    }
    if anchoredEnd {
      var suffix := literals[|literals| - 1];
      literals := literals[..|literals| - 1];
      ghost var spent;
      anchored, spent := TokensAt(candidate, suffix, |candidate| - |suffix|);
      comparisons := comparisons + spent;
      if !anchored || |candidate| - |suffix| < start {
        anchored := false;
        return;
      }
      end := |candidate| - |suffix|;
    }
    anchored := true;
  }

  /** The placement half of `globMatches`. */
  method MatchLiterals(folded: seq<seq<Token>>, anchoredStart: bool, anchoredEnd: bool, candidate: seq<Token>)
    returns (matched: bool, ghost comparisons: nat)
    requires Enough(folded, anchoredStart, anchoredEnd)
    requires forall i :: 0 <= i < |folded| ==> folded[i] != []
    ensures var frame := LiteralsFrame(folded, anchoredStart, anchoredEnd);
            && (matched <==> Anchored(frame, candidate))
            && comparisons <= |frame.first| + |frame.last| + 3 * TotalLength(frame.middle) + 3 * |candidate|
  {
    var literals, start, end;
    matched, literals, start, end, comparisons := TakeEnds(folded, anchoredStart, anchoredEnd, candidate);
    if matched {
      ghost var spent;
      matched, spent := PlaceLiterals(literals, candidate, start, end);
      comparisons := comparisons + spent;
    }
  }

  /** The decision of `globMatches`, and a bound on the token comparisons it spends: linear in
      the two lengths, whatever the pattern. */
  method GlobMatches(folder: CaseFolder, pattern: Text, value: Text) returns (matched: bool, ghost comparisons: nat)
    requires folder.Valid()
    modifies folder`exceptions
    ensures folder.Valid()
    ensures matched <==> Matches(Elements(folder.tables, pattern), folder.tables.FoldAll(value))
    ensures comparisons <= 3 * (|pattern| + |value|)
  {
    ghost var tables := folder.tables;
    var candidate := folder.SimpleCaseFold(value);
    if STAR !in pattern {
      var needle := folder.SimpleCaseFold(pattern);
      NoStarMatches(tables, pattern, candidate);
      matched, comparisons := SameTokens(needle, candidate);
      return;
    }
    var anchoredStart := pattern[0] != STAR;
    var anchoredEnd := pattern[|pattern| - 1] != STAR;
    var literals := FoldLiterals(folder, NonEmpty(Split(pattern)));
    GlobLiterals(tables, pattern);
    StarPatternDecompose(tables, pattern, candidate);
    FrameTotal(literals, anchoredStart, anchoredEnd);
    if |literals| == 0 {
      assert OccursAt(candidate, [], 0) && OccursAt(candidate, [], |candidate|);
      return true, 0;
    }
    matched, comparisons := MatchLiterals(literals, anchoredStart, anchoredEnd, candidate);
  }

  /** Filtering empty pieces first and taking the ends away afterwards gives the same literals. */
  lemma LiteralsShape(first: seq<Token>, middle: seq<seq<Token>>, last: seq<Token>)
    ensures var literals := NonEmpty([first] + (middle + [last]));
            && Enough(literals, first != [], last != [])
            && LiteralsFrame(literals, first != [], last != []) == Frame(first, NonEmpty(middle), last)
  {
    NonEmptyConcat([first], middle + [last]);
    NonEmptyConcat(middle, [last]);
    var rest := NonEmpty(middle + [last]);
    if last == [] {
      assert NonEmpty([last]) == [];
      Nothing(NonEmpty(middle));
    } else {
      assert NonEmpty([last]) == [last];
      assert rest[..|rest| - 1] == NonEmpty(middle);
    }
    if first == [] {
      assert NonEmpty([first]) == [];
      Nothing(rest);
    } else {
      assert NonEmpty([first]) == [first];
      assert ([first] + rest)[1..] == rest;
    }
  }

  lemma PiecesShape(pieces: seq<seq<Token>>)
    requires |pieces| > 1
    ensures var anchoredStart, anchoredEnd := pieces[0] != [], pieces[|pieces| - 1] != [];
            && Enough(NonEmpty(pieces), anchoredStart, anchoredEnd)
            && LiteralsFrame(NonEmpty(pieces), anchoredStart, anchoredEnd) == PiecesFrame(pieces)
  {
    Ends(pieces);
    LiteralsShape(pieces[0], pieces[1..|pieces| - 1], pieces[|pieces| - 1]);
  }

  /** The literals of a pattern with a star, and their size. */
  lemma GlobLiterals(tables: CaseTables, pattern: Text)
    requires STAR in pattern
    ensures var pieces, literals := FoldPieces(tables, Split(pattern)), FoldPieces(tables, NonEmpty(Split(pattern)));
            var anchoredStart, anchoredEnd := pattern[0] != STAR, pattern[|pattern| - 1] != STAR;
            && |pieces| > 1
            && Enough(literals, anchoredStart, anchoredEnd)
            && LiteralsFrame(literals, anchoredStart, anchoredEnd) == PiecesFrame(pieces)
            && (forall i :: 0 <= i < |literals| ==> literals[i] != [])
            && TotalLength(literals) <= |pattern|
  {
    var pieces := FoldPieces(tables, Split(pattern));
    SplitShape(pattern);
    FilterBeforeFold(tables, Split(pattern));
    NonEmptyPieces(pieces);
    FoldPiecesEnds(tables, Split(pattern));
    PiecesShape(pieces);
  }

  lemma {:induction false} FoldPiecesEnds(tables: CaseTables, pieces: seq<Text>)
    requires pieces != []
    ensures var folded := FoldPieces(tables, pieces);
            && (folded[0] == [] <==> pieces[0] == [])
            && (folded[|folded| - 1] == [] <==> pieces[|pieces| - 1] == [])
  {
    if |pieces| > 1 {
      FoldPiecesEnds(tables, pieces[1..]);
      assert pieces[1..][|pieces| - 2] == pieces[|pieces| - 1];
    }
  }

  lemma {:induction false} FrameTotal(literals: seq<seq<Token>>, anchoredStart: bool, anchoredEnd: bool)
    requires Enough(literals, anchoredStart, anchoredEnd)
    ensures var frame := LiteralsFrame(literals, anchoredStart, anchoredEnd);
            |frame.first| + TotalLength(frame.middle) + |frame.last| == TotalLength(literals)
  {
    var rest := if anchoredStart then literals[1..] else literals;
    if anchoredEnd {
      TotalLengthSnoc(rest[..|rest| - 1], rest[|rest| - 1]);
      Whole(rest, |rest| - 1);
      assert rest[|rest| - 1..] == [rest[|rest| - 1]];
    }
  }

  lemma {:induction false} TotalLengthSnoc<T>(pieces: seq<seq<T>>, last: seq<T>)
    ensures TotalLength(pieces + [last]) == TotalLength(pieces) + |last|
  {
    if pieces == [] {
      assert pieces + [last] == [last];
    } else {
      assert (pieces + [last])[1..] == pieces[1..] + [last];
      TotalLengthSnoc(pieces[1..], last);
    }
  }
}

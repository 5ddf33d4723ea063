/** Scanning a text into lexical units and adding up their charges, for any classification of the
    characters and any charge. `TokenEstimate` supplies the repository's own. */
module Scanner {
  import opened Sequences

  /** Words and white space form maximal runs; any other character is a unit by itself. */
  datatype Class = Word | Space | Other

  datatype Lexicon = Lexicon(classOf: char -> Class, charge: string -> nat)

  /** Neighbours that the scanner keeps in one unit. */
  predicate Joined(lex: Lexicon, left: char, right: char) {
    lex.classOf(left) == lex.classOf(right) && lex.classOf(left) != Other
  }

  /** One unit: a single character, or a run of words or of white space. */
  ghost predicate IsUnit(lex: Lexicon, text: string) {
    && text != []
    && (forall i :: 0 <= i < |text| ==> lex.classOf(text[i]) == lex.classOf(text[0]))
    && (|text| > 1 ==> lex.classOf(text[0]) != Other)
  }

  /** Length of the unit at the head of the text. */
  function UnitLength(lex: Lexicon, text: string): (n: nat)
    requires text != []
    ensures 1 <= n <= |text|
    ensures IsUnit(lex, text[..n])
    ensures n < |text| ==> !Joined(lex, text[0], text[n])
  {
    if |text| > 1 && Joined(lex, text[0], text[1]) then
      var n := 1 + UnitLength(lex, text[1..]);
      assert text[1..][..n - 1] == text[1..n];
      assert forall i :: 1 <= i < n ==> text[i] == text[1..n][i - 1];
      n
    else 1
  }

  function Total(lex: Lexicon, text: string): nat {
    if text == [] then 0
    else
      var n := UnitLength(lex, text);
      lex.charge(text[..n]) + Total(lex, text[n..])
  }

  /** A maximal unit at the head is the one that the scanner takes. */
  lemma HeadUnit(lex: Lexicon, unit: string, rest: string)
    requires IsUnit(lex, unit)
    requires rest != [] ==> !Joined(lex, unit[0], rest[0])
    ensures UnitLength(lex, unit + rest) == |unit|
    ensures Total(lex, unit + rest) == lex.charge(unit) + Total(lex, rest)
  {
    var text := unit + rest;
    var n := UnitLength(lex, text);
    var end := if rest == [] then unit[0] else text[|unit|];
    assert forall i :: 0 <= i < n ==> text[i] == text[..n][i];
    assert text[..|unit|] == unit && text[|unit|..] == rest;
  }

  lemma SingleUnit(lex: Lexicon, unit: string)
    requires IsUnit(lex, unit)
    ensures Total(lex, unit) == lex.charge(unit)
  {
    HeadUnit(lex, unit, []);
    Nothing(unit);
  }

  /** The head unit of `a` stays maximal in `a + b`. */
  lemma BoundaryAfterUnit(lex: Lexicon, a: string, b: string, n: nat)
    requires a != [] && n == UnitLength(lex, a)
    requires b != [] && !Joined(lex, a[|a| - 1], b[0])
    ensures a[n..] + b != [] && !Joined(lex, a[..n][0], (a[n..] + b)[0])
  {
    if n < |a| {
      assert (a[n..] + b)[0] == a[n];
    } else {
      assert a[..n][n - 1] == a[|a| - 1];
    }
  }

  /** A cut between two units is exact. */
  lemma {:induction false} TotalSplits(lex: Lexicon, a: string, b: string)
    requires a == [] || b == [] || !Joined(lex, a[|a| - 1], b[0])
    ensures Total(lex, a + b) == Total(lex, a) + Total(lex, b)
    decreases |a|
  {
    if a == [] {
      Nothing(b);
    } else if b == [] {
      Nothing(a);
    } else {
      var n := UnitLength(lex, a);
      TotalSplits(lex, a[n..], b);
      BoundaryAfterUnit(lex, a, b, n);
      HeadUnit(lex, a[..n], a[n..] + b);
      CutLeft(a, b, n);
    }
  }

  /** Where the last unit of the text starts. */
  ghost function LastUnit(lex: Lexicon, text: string): (k: nat)
    requires text != []
    ensures k < |text|
    ensures IsUnit(lex, text[k..])
    ensures k > 0 ==> !Joined(lex, text[k - 1], text[k])
  {
    LastUnitFrom(lex, text, |text| - 1)
  }

  ghost function LastUnitFrom(lex: Lexicon, text: string, k: nat): (start: nat)
    requires k < |text| && IsUnit(lex, text[k..])
    ensures start <= k && IsUnit(lex, text[start..])
    ensures start > 0 ==> !Joined(lex, text[start - 1], text[start])
  {
    if k > 0 && Joined(lex, text[k - 1], text[k]) then
      assert text[k - 1..] == [text[k - 1]] + text[k..];
      LastUnitFrom(lex, text, k - 1)
    else k
  }

  lemma LastUnitTotal(lex: Lexicon, text: string)
    requires text != []
    ensures Total(lex, text) == Total(lex, text[..LastUnit(lex, text)]) + lex.charge(text[LastUnit(lex, text)..])
  {
    var k := LastUnit(lex, text);
    TotalSplits(lex, text[..k], text[k..]);
    SingleUnit(lex, text[k..]);
    Whole(text, k);
  }

  lemma UnitConcat(lex: Lexicon, a: string, b: string)
    requires IsUnit(lex, a) && IsUnit(lex, b) && Joined(lex, a[0], b[0])
    ensures IsUnit(lex, a + b) && (a + b)[0] == a[0]
  {
  }

  /** White space fuses without extra charge. */
  ghost predicate SpaceFuses(lex: Lexicon) {
    forall a, b :: IsUnit(lex, a) && IsUnit(lex, b) && lex.classOf(a[0]) == lex.classOf(b[0]) == Space ==>
      lex.charge(a + b) <= lex.charge(a) + lex.charge(b)
  }

  /** A maximal unit inside a text. */
  lemma TotalAround(lex: Lexicon, front: string, unit: string, rest: string)
    requires IsUnit(lex, unit)
    requires front != [] ==> !Joined(lex, front[|front| - 1], unit[0])
    requires rest != [] ==> !Joined(lex, unit[0], rest[0])
    ensures Total(lex, front + unit + rest) == Total(lex, front) + lex.charge(unit) + Total(lex, rest)
  {
    HeadUnit(lex, unit, rest);
    assert (unit + rest)[0] == unit[0];
    TotalSplits(lex, front, unit + rest);
    Associate(front, unit, rest);
  }

  /** What happens when the last unit of `a` and the first unit of `b` become one. */
  lemma TotalFused(lex: Lexicon, a: string, b: string, k: nat, n: nat)
    requires a != [] && b != [] && Joined(lex, a[|a| - 1], b[0])
    requires k == LastUnit(lex, a) && n == UnitLength(lex, b)
    ensures lex.classOf(a[k..][0]) == lex.classOf(b[..n][0]) == lex.classOf(b[0])
    ensures Total(lex, a + b) == Total(lex, a[..k]) + lex.charge(a[k..] + b[..n]) + Total(lex, b[n..])
  {
    var front, left, right, rest := a[..k], a[k..], b[..n], b[n..];
    assert left[|left| - 1] == a[|a| - 1];
    assert right[0] == b[0];
    UnitConcat(lex, left, right);
    assert k > 0 ==> front[|front| - 1] == a[k - 1] && left[0] == a[k];
    TotalAround(lex, front, left + right, rest);
    CutMeet(a, b, k, n);
  }

  /** Concatenation costs no more than its parts, unless it fuses two words. */
  lemma TotalSubadditive(lex: Lexicon, a: string, b: string)
    requires SpaceFuses(lex)
    requires a == [] || b == [] || lex.classOf(a[|a| - 1]) != Word || lex.classOf(b[0]) != Word
    ensures Total(lex, a + b) <= Total(lex, a) + Total(lex, b)
  {
    if a == [] || b == [] || !Joined(lex, a[|a| - 1], b[0]) {
      TotalSplits(lex, a, b);
    } else {
      var k, n := LastUnit(lex, a), UnitLength(lex, b);
      TotalFused(lex, a, b, k, n);
      LastUnitTotal(lex, a);
      assert lex.charge(a[k..] + b[..n]) <= lex.charge(a[k..]) + lex.charge(b[..n]);
    }
  }

  // ---------------------------------------------------------------------------------------
  // Growing a text by one character
  // ---------------------------------------------------------------------------------------

  /** The last unit of `text`, grown by `c`, is charged less than it was before. */
  ghost predicate Drops(lex: Lexicon, text: string, c: char) {
    && text != []
    && Joined(lex, text[|text| - 1], c)
    && lex.charge(text[LastUnit(lex, text)..] + [c]) < lex.charge(text[LastUnit(lex, text)..])
  }

  /** One more character lowers the total exactly when the last unit drops. */
  lemma GrowthStep(lex: Lexicon, text: string, c: char)
    ensures Total(lex, text + [c]) < Total(lex, text) <==> Drops(lex, text, c)
  {
    if text != [] && Joined(lex, text[|text| - 1], c) {
      TotalFused(lex, text, [c], LastUnit(lex, text), 1);
      LastUnitTotal(lex, text);
      assert UnitLength(lex, [c]) == 1 && [c][..1] == [c] && [c][1..] == [];
    } else {
      TotalSplits(lex, text, [c]);
    }
  }

  /** A longer stretch of white space is never charged less, wherever it grows. */
  ghost predicate SpaceGrows(lex: Lexicon) {
    forall a, b, c :: IsUnit(lex, a + b) && lex.classOf(c) == lex.classOf((a + b)[0]) == Space ==>
      lex.charge(a + b) <= lex.charge(a + [c] + b)
  }

  /** The same in front of a fixed suffix that does not start inside a word. */
  lemma GrowthBeforeSuffix(lex: Lexicon, text: string, c: char, suffix: string)
    requires SpaceFuses(lex) && SpaceGrows(lex)
    requires suffix == [] || lex.classOf(suffix[0]) != Word
    requires !Drops(lex, text, c)
    ensures Total(lex, text + suffix) <= Total(lex, text + [c] + suffix)
  {
    if suffix == [] || !Joined(lex, c, suffix[0]) {
      GrowthStep(lex, text, c);
      TotalSubadditive(lex, text, suffix);
      TotalSplits(lex, text + [c], suffix);
    } else {
      SpaceBeforeSuffix(lex, text, c, suffix);
    }
  }

  lemma SpaceBeforeSuffix(lex: Lexicon, text: string, c: char, suffix: string)
    requires SpaceGrows(lex)
    requires suffix != [] && lex.classOf(c) == lex.classOf(suffix[0]) == Space
    ensures Total(lex, text + suffix) <= Total(lex, text + [c] + suffix)
  {
    var front, spaces := CutTrailing(lex, text);
    var head, tail := CutLeading(lex, c, suffix);
    SpaceBetween(lex, front, spaces, c, head, tail);
  }

  /** A text is its trailing white space, possibly none, behind something else. */
  lemma CutTrailing(lex: Lexicon, text: string) returns (front: string, spaces: string)
    ensures text == front + spaces
    ensures spaces != [] ==> IsUnit(lex, spaces) && lex.classOf(spaces[0]) == Space
    ensures front != [] ==> lex.classOf(front[|front| - 1]) != Space
  {
    var k := if text != [] && lex.classOf(text[|text| - 1]) == Space then LastUnit(lex, text) else |text|;
    TrailingSpace(lex, text, k);
    Whole(text, k);
    front, spaces := text[..k], text[k..];
  }

  /** A suffix that starts with white space is that white space in front of something else. */
  lemma CutLeading(lex: Lexicon, c: char, suffix: string) returns (head: string, tail: string)
    requires suffix != [] && lex.classOf(c) == lex.classOf(suffix[0]) == Space
    ensures suffix == head + tail
    ensures IsUnit(lex, head) && lex.classOf(head[0]) == Space
    ensures IsUnit(lex, [c] + head) && lex.classOf(([c] + head)[0]) == Space
    ensures tail != [] ==> lex.classOf(tail[0]) != Space
  {
    var n := UnitLength(lex, suffix);
    LeadingSpace(lex, c, suffix, n);
    Whole(suffix, n);
    head, tail := suffix[..n], suffix[n..];
  }

  lemma SpaceBetween(lex: Lexicon, front: string, spaces: string, c: char, head: string, tail: string)
    requires SpaceGrows(lex)
    requires spaces != [] ==> IsUnit(lex, spaces) && lex.classOf(spaces[0]) == Space
    requires IsUnit(lex, head) && lex.classOf(head[0]) == Space
    requires IsUnit(lex, [c] + head) && lex.classOf(([c] + head)[0]) == lex.classOf(c) == Space
    requires front != [] ==> lex.classOf(front[|front| - 1]) != Space
    requires tail != [] ==> lex.classOf(tail[0]) != Space
    ensures Total(lex, (front + spaces) + (head + tail)) <= Total(lex, (front + spaces) + [c] + (head + tail))
  {
    SpaceThenUnit(lex, spaces, head);
    SpaceThenUnit(lex, spaces, [c] + head);
    InsertSpace(lex, front, spaces, c, head, tail);
    Regroup(front, spaces, head, tail);
    Regroup(front, spaces, [c] + head, tail);
    Associate([c], head, tail);
    Associate(front + spaces, [c], head + tail);
  }

  lemma Regroup(a: string, b: string, c: string, d: string)
    ensures (a + b) + (c + d) == a + (b + c) + d
  {
    Associate(a + b, c, d);
    Associate(a, b, c);
  }

  lemma LeadingSpace(lex: Lexicon, c: char, suffix: string, n: nat)
    requires suffix != [] && lex.classOf(c) == lex.classOf(suffix[0]) == Space
    requires n == UnitLength(lex, suffix)
    ensures IsUnit(lex, suffix[..n]) && lex.classOf(suffix[..n][0]) == Space
    ensures IsUnit(lex, [c] + suffix[..n]) && lex.classOf(([c] + suffix[..n])[0]) == Space
    ensures suffix[n..] != [] ==> lex.classOf(suffix[n..][0]) != Space
  {
    assert suffix[..n][0] == suffix[0];
    UnitConcat(lex, [c], suffix[..n]);
  }

  lemma SpaceThenUnit(lex: Lexicon, spaces: string, unit: string)
    requires spaces != [] ==> IsUnit(lex, spaces) && lex.classOf(spaces[0]) == Space
    requires IsUnit(lex, unit) && lex.classOf(unit[0]) == Space
    ensures IsUnit(lex, spaces + unit) && lex.classOf((spaces + unit)[0]) == Space
  {
    if spaces == [] {
      assert spaces + unit == unit;
    } else {
      UnitConcat(lex, spaces, unit);
    }
  }

  /** The trailing white space of a text, possibly none, starts at `k`. */
  lemma TrailingSpace(lex: Lexicon, text: string, k: nat)
    requires k == if text != [] && lex.classOf(text[|text| - 1]) == Space then LastUnit(lex, text) else |text|
    ensures text[k..] != [] ==> IsUnit(lex, text[k..]) && lex.classOf(text[k..][0]) == Space
    ensures text[..k] != [] ==> lex.classOf(text[..k][k - 1]) != Space
  {
    if k < |text| {
      assert text[k..][|text| - 1 - k] == text[|text| - 1];
      assert text[k..][0] == text[k];
    }
  }

  lemma InsertSpace(lex: Lexicon, front: string, spaces: string, c: char, head: string, tail: string)
    requires SpaceGrows(lex)
    requires IsUnit(lex, spaces + head) && IsUnit(lex, spaces + ([c] + head))
    requires lex.classOf((spaces + head)[0]) == lex.classOf((spaces + ([c] + head))[0]) == lex.classOf(c) == Space
    requires front != [] ==> lex.classOf(front[|front| - 1]) != Space
    requires tail != [] ==> lex.classOf(tail[0]) != Space
    ensures Total(lex, front + (spaces + head) + tail) <= Total(lex, front + (spaces + ([c] + head)) + tail)
  {
    TotalAround(lex, front, spaces + head, tail);
    TotalAround(lex, front, spaces + ([c] + head), tail);
    Associate(spaces, [c], head);
  }
}
